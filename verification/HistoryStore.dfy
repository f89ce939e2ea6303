/** The per-round working set of history windows (llo/dev/v31/history.go). */
module HistoryStores {
  import opened Collections
  import opened HistoryLayout
  import opened HistoryTracking
  import opened HistoryRing
  import opened KeyValueStates

  /** The depth a reset window is given back: nothing above the cap is admitted. */
  function Admissible(depth: nat): nat { if depth <= MAX_DEPTH then depth else 0 }

  // ------------------------------------------------------------- coherence

  /** Pair `k` means window `w`: through its working copy once it is opened, and
      through its stored keys until then. */
  ghost predicate Means(data: Data, windows: map<Pair, Working>, k: Pair, w: Window) {
    if k in windows then Tracks(CellOf(data, k), windows[k], w.log) && View(windows[k], w.log) == w
    else CellHolds(CellOf(data, k), w)
  }

  ghost predicate Coherent(data: Data, windows: map<Pair, Working>, known: map<Pair, Window>) {
    && (forall k :: k in windows ==> Consistent(windows[k]))
    && (forall k :: k in known ==> Means(data, windows, k, known[k]))
  }

  lemma CoherentUpdate(
    data: Data, windows: map<Pair, Working>, known: map<Pair, Window>, k: Pair, s: Working, w: Window)
    requires Coherent(data, windows, known) && Consistent(s)
    requires Tracks(CellOf(data, k), s, w.log) && View(s, w.log) == w
    ensures Coherent(data, windows[k := s], known[k := w])
  {
    hide Consistent, Tracks, CellHolds;
    forall j | j in known && j != k ensures Means(data, windows[k := s], j, known[j]) {
      assert Means(data, windows, j, known[j]);
    }
  }

  /** An update of a pair nothing is claimed about. */
  lemma CoherentUnknown(data: Data, windows: map<Pair, Working>, known: map<Pair, Window>, k: Pair, s: Working)
    requires Coherent(data, windows, known) && Consistent(s)
    ensures Coherent(data, windows[k := s], known - {k})
  {
    hide Consistent, Tracks, CellHolds;
    forall j | j in known && j != k ensures Means(data, windows[k := s], j, known[j]) {
      assert Means(data, windows, j, known[j]);
    }
  }

  /** Nothing loaded and nothing appended yet. */
  predicate Untouched(s: Working) { s.chunks == map[] && s.dirtyChunk == None && !s.stored }

  /** The working copy that replaces a discarded one. */
  ghost function Discarded(depth: nat): Working { WithDepth(ResetCopy(), Admissible(depth)) }

  /** The working copy a pair is opened as, whatever its header key holds. */
  ghost function OpenedFrom(data: Data, k: Pair, depth: nat): Working {
    match HeaderReading(Lookup(data, HeaderKey(k)))
    case Ok(h) => Opened(if h.Some? then h.value else EMPTY_HEADER)
    case Err(_) => Discarded(depth)
  }

  lemma OpenedFromOk(data: Data, k: Pair, depth: nat)
    ensures Consistent(OpenedFrom(data, k, depth)) && Untouched(OpenedFrom(data, k, depth))
    ensures HeaderShape(OpenedFrom(data, k, depth).header)
  {
    ResetMeans(data, k, Admissible(depth));
  }

  /** The working copy after reading chunks in turn, whatever their slots hold; none when
      one of them is missing, does not decode or does not match the header. */
  ghost function Gathered(data: Data, k: Pair, s: Working, sequences: seq<nat>): Option<Working>
    requires HeaderShape(s.header)
    decreases |sequences|
  {
    if sequences == [] then Some(s)
    else
      var n := |sequences| - 1;
      match Gathered(data, k, s, sequences[..n])
      case None => None
      case Some(t) => if sequences[n] in t.chunks then Some(t) else GatheredOne(data, k, s.header, t, sequences[n])
  }

  ghost function GatheredOne(data: Data, k: Pair, h: Header, t: Working, q: nat): Option<Working>
    requires HeaderShape(h)
  {
    match ChunkReading(Lookup(data, ChunkKey(k, Slot(q))))
    case Ok(Some(c)) => if Matches(h, c) then Some(t.(chunks := t.chunks[c.sequence := c])) else None
    case _ => None
  }

  /** The working copy an append finds once it has asked for the newest chunk. */
  ghost function TailLoaded(data: Data, k: Pair, s: Working, depth: nat): Working
    requires HeaderShape(s.header)
  {
    var plan := if s.header.requiredCount > 0 && TailHasRoom(s.header) then [TailSequence(s.header)] else [];
    var t := Gathered(data, k, s, plan);
    if t.Some? then t.value else Discarded(depth)
  }

  lemma NoneGathered(data: Data, k: Pair, s: Working)
    requires HeaderShape(s.header)
    ensures Gathered(data, k, s, []) == Some(s)
  {
  }

  lemma GatherNext(data: Data, k: Pair, s: Working, sequences: seq<nat>, i: nat, t: Working)
    requires HeaderShape(s.header) && i < |sequences| && Gathered(data, k, s, sequences[..i]) == Some(t)
    ensures Gathered(data, k, s, sequences[..i + 1]) ==
            if sequences[i] in t.chunks then Some(t) else GatheredOne(data, k, s.header, t, sequences[i])
  {
    assert sequences[..i + 1][..i] == sequences[..i];
  }

  lemma {:induction false} NoMoreGathered(data: Data, k: Pair, s: Working, sequences: seq<nat>, i: nat)
    requires HeaderShape(s.header) && i <= |sequences| && Gathered(data, k, s, sequences[..i]) == None
    ensures Gathered(data, k, s, sequences) == None
    decreases |sequences|
  {
    if i == |sequences| {
      assert sequences[..i] == sequences;
    } else {
      var n := |sequences| - 1;
      assert sequences[..n][..i] == sequences[..i];
      NoMoreGathered(data, k, s, sequences[..n], i);
    }
  }

  lemma ResetMeans(data: Data, k: Pair, depth: nat)
    requires depth <= MAX_DEPTH
    ensures HeaderShape(EMPTY_HEADER) && Consistent(WithDepth(ResetCopy(), depth))
    ensures Tracks(CellOf(data, k), WithDepth(ResetCopy(), depth), [])
    ensures View(WithDepth(ResetCopy(), depth), []) == Window([], 0, depth)
    ensures WithDepth(ResetCopy(), 0) == ResetCopy()
    ensures Untouched(WithDepth(ResetCopy(), depth))
    ensures WithDepth(ResetCopy(), depth).headerDirty && WithDepth(ResetCopy(), depth).header.requiredCount == depth
  {
    ResetTracks(CellOf(data, k));
    WithDepthTracks(CellOf(data, k), ResetCopy(), [], depth);
    WithDepthConsistent(ResetCopy(), depth);
  }

  lemma CoherentConsistent(data: Data, windows: map<Pair, Working>, known: map<Pair, Window>, k: Pair)
    requires Coherent(data, windows, known) && k in windows
    ensures Consistent(windows[k]) && HeaderShape(windows[k].header)
  {
  }

  lemma KnownDepth(data: Data, windows: map<Pair, Working>, known: map<Pair, Window>, k: Pair, n: nat)
    requires Coherent(data, windows, known) && k in windows && k in known
    requires windows[k].dirtyChunk.None? && n <= MAX_DEPTH
    ensures HeaderShape(windows[k].header) && Consistent(WithDepth(windows[k], n))
    ensures Tracks(CellOf(data, k), WithDepth(windows[k], n), SetDepth(known[k], n).log)
    ensures View(WithDepth(windows[k], n), SetDepth(known[k], n).log) == SetDepth(known[k], n)
    ensures SetDepth(known[k], n).depth == n
  {
    hide Tracks, CellOf, HeaderShape, Retains, WithDepth, Follows;
    assert Means(data, windows, k, known[k]);
    WithDepthTracks(CellOf(data, k), windows[k], known[k].log, n);
    WithDepthConsistent(windows[k], n);
    TracksOk(CellOf(data, k), windows[k], known[k].log);
  }

  lemma TracksOk(c: Cell, s: Working, log: seq<Record>)
    requires Tracks(c, s, log)
    ensures WindowOk(View(s, log)) && HeaderShape(s.header)
  {
    HeaderOfShape(View(s, log));
  }

  /** The header names chunk `q` as retained. */
  predicate Names(h: Header, q: nat) { h.firstSequence <= q < h.firstSequence + |h.counts| }

  /** A tracked window's retained chunk is found in storage and accepted. */
  lemma KnownChunk(data: Data, windows: map<Pair, Working>, known: map<Pair, Window>, k: Pair, q: nat)
    requires Coherent(data, windows, known) && k in windows && k in known
    requires Names(windows[k].header, q) && q !in windows[k].chunks
    ensures Retained(known[k], q) && HeaderShape(windows[k].header)
    ensures var c := ChunkOf(known[k].log, q);
            var s := windows[k].(chunks := windows[k].chunks[q := c]);
            && ChunkReading(Lookup(data, ChunkKey(k, Slot(q)))) == Ok(Some(c)) && c.sequence == q
            && Matches(windows[k].header, c)
            && Tracks(CellOf(data, k), s, known[k].log) && View(s, known[k].log) == known[k]
    ensures !SlotLoaded(windows[k], Slot(q))
  {
    hide Tracks, Consistent;
    assert Means(data, windows, k, known[k]);
    TracksLoaded(CellOf(data, k), windows[k], known[k].log);
    StoredChunkIsAccepted(CellOf(data, k), windows[k], known[k].log, q);
    LoadTracks(CellOf(data, k), windows[k], known[k].log, q);
    UnloadedSlot(known[k], windows[k], q);
  }

  lemma TracksLoaded(c: Cell, s: Working, log: seq<Record>)
    requires Tracks(c, s, log)
    ensures WindowOk(View(s, log)) && forall p :: p in s.chunks ==> Retained(View(s, log), p)
    ensures forall q :: Names(s.header, q) ==> Retained(View(s, log), q)
  {
  }

  /** Appending to a tracked window: accepted exactly when the window accepts. */
  lemma KnownAppend(data: Data, windows: map<Pair, Working>, known: map<Pair, Window>, k: Pair, r: Record)
    requires Coherent(data, windows, known) && k in windows && k in known
    requires !windows[k].stored
    requires windows[k].header.requiredCount > 0 && TailHasRoom(windows[k].header) ==>
               TailSequence(windows[k].header) in windows[k].chunks
    ensures AppendAnswer(windows[k], r.observedAt, Some(r.value)) == Ok(true) <==> Accepts(known[k], r)
    ensures AppendAnswer(windows[k], r.observedAt, Some(r.value)) in {Ok(true), Ok(false), Err(RecordTooLarge)}
    ensures Accepts(known[k], r) ==>
              && HeaderShape(Stored(windows[k], r).header)
              && Tracks(CellOf(data, k), Evicted(Stored(windows[k], r)), AppendTo(known[k], r).log)
              && View(Evicted(Stored(windows[k], r)), AppendTo(known[k], r).log) == AppendTo(known[k], r)
  {
    hide Tracks, WindowOk, Stored, Evicted, HeaderShape, Consistent, CellOf, AppendTo, RecordBytes, TailHasRoom;
    assert Means(data, windows, k, known[k]);
    TracksHeader(CellOf(data, k), windows[k], known[k].log);
    if Accepts(known[k], r) {
      AppendTracks(CellOf(data, k), windows[k], known[k].log, r);
      AppendToLog(known[k], r);
    }
  }

  lemma AppendToLog(w: Window, r: Record)
    requires Accepts(w, r)
    ensures AppendTo(w, r).log == w.log + [r]
  {
  }

  lemma TracksHeader(c: Cell, s: Working, log: seq<Record>)
    requires Tracks(c, s, log)
    ensures !s.stored ==> s.dirtyChunk.None?
    ensures s.header.counts != [] <==> log != []
    ensures log != [] ==> s.header.last == log[|log| - 1].observedAt
  {
  }

  /** Nothing appended yet, and nothing loaded but the newest chunk if it has room. */
  predicate Appendable(s: Working) {
    && s.dirtyChunk == None && !s.stored
    && s.chunks.Keys <= (if TailHasRoom(s.header) then {TailSequence(s.header)} else {})
    && (s.header.requiredCount > 0 && TailHasRoom(s.header) ==> TailSequence(s.header) in s.chunks)
  }

  lemma AppendableOnceLoaded(s: Working, t: Working, plan: seq<nat>)
    requires Untouched(s) && t == s.(chunks := t.chunks)
    requires t.chunks.Keys == s.chunks.Keys + set q | q in plan
    requires plan == if s.header.requiredCount > 0 && TailHasRoom(s.header) then [TailSequence(s.header)] else []
    ensures Appendable(t)
  {
    assert forall q :: q in plan ==> q == TailSequence(s.header);
  }

  lemma DiscardedIsAppendable(depth: nat)
    ensures Appendable(Discarded(depth)) && Untouched(Discarded(depth)) && Discarded(depth).header.counts == []
    ensures !TailHasRoom(Discarded(depth).header)
  {
  }

  lemma OpenedFromErr(data: Data, k: Pair, depth: nat)
    ensures HeaderReading(Lookup(data, HeaderKey(k))).Err? ==> OpenedFrom(data, k, depth) == Discarded(depth)
    ensures Lookup(data, HeaderKey(k)) == None ==> OpenedFrom(data, k, depth) == Opened(EMPTY_HEADER)
  {
  }

  lemma RejectedAppend(w: Window, r: Record)
    ensures !Accepts(w, r) ==> AppendTo(w, r) == w
  {
  }

  lemma StoredIsDirty(s: Working, r: Record)
    requires Consistent(s) && MayStore(s.header, r)
    requires TailHasRoom(s.header) ==> TailSequence(s.header) in s.chunks
    ensures HeaderShape(Stored(s, r).header)
    ensures Evicted(Stored(s, r)).headerDirty && Evicted(Stored(s, r)).header.requiredCount == s.header.requiredCount
  {
    StoredConsistent(s, r);
  }

  lemma AppendKeepsTail(s: Working, r: Record)
    requires Consistent(s) && MayStore(s.header, r)
    requires TailHasRoom(s.header) ==> TailSequence(s.header) in s.chunks
    requires s.chunks.Keys <= (if TailHasRoom(s.header) then {TailSequence(s.header)} else {})
    ensures HeaderShape(Stored(s, r).header)
    ensures s.chunks.Keys <= Evicted(Stored(s, r)).chunks.Keys
  {
    StoredConsistent(s, r);
  }

  lemma SpanHolds(lo: nat, hi: nat)
    requires lo <= hi
    ensures forall q: nat :: q in Span(lo, hi) <==> lo <= q < hi
  {
    forall q: nat | lo <= q < hi ensures q in Span(lo, hi) {
      assert Span(lo, hi)[q - lo] == q;
    }
  }

  ghost predicate PlanLoaded(s: Working, n: nat) {
    && s.header.counts != [] && 0 <= s.header.firstSequence + PlanStart(s.header, n)
    && AllLoaded(s.chunks, s.header.firstSequence + PlanStart(s.header, n), s.header.firstSequence + |s.header.counts|)
  }

  /** What reading `n` records of a window answers. */
  function ReadAnswer(w: Window, n: nat): Result<seq<Record>, HistoryError> {
    if n <= RetainedCount(w) && n <= |w.log| then Ok(LastN(w.log, n)) else Err(InsufficientHistory)
  }

  /** Reading `n` records asks for chunks that are all found and accepted, but not under
      the sequences they were asked for, so the read fails and nothing is discarded. */
  ghost predicate Misread(data: Data, k: Pair, s: Working, n: nat)
    requires HeaderShape(s.header)
  {
    && 0 < n <= Total(s.header.counts)
    && var t := Gathered(data, k, s, PlanOf(s.header, n));
       t.Some? && ReadGap(t.value, n)
  }

  lemma DiscardedReads(depth: nat)
    ensures Discarded(depth).header.counts == [] && Total(Discarded(depth).header.counts) == 0
  {
  }

  lemma DiscardedNeverMisread(data: Data, k: Pair, depth: nat, n: nat)
    ensures HeaderShape(Discarded(depth).header) && !Misread(data, k, Discarded(depth), n)
  {
    hide Gathered, ReadGap;
    DiscardedReads(depth);
  }

  lemma KnownTotal(data: Data, windows: map<Pair, Working>, known: map<Pair, Window>, k: Pair)
    requires Coherent(data, windows, known) && k in windows && k in known
    ensures Total(windows[k].header.counts) == RetainedCount(known[k]) <= |known[k].log|
  {
    assert Means(data, windows, k, known[k]);
    HeaderTotal(known[k]);
  }

  lemma ShortRead(data: Data, windows: map<Pair, Working>, known: map<Pair, Window>, k: Pair, n: nat)
    requires Coherent(data, windows, known) && k in windows && k in known
    ensures n > Total(windows[k].header.counts) ==> ReadAnswer(known[k], n) == Err(InsufficientHistory)
  {
    KnownTotal(data, windows, known, k);
  }

  lemma NeverCorrupt(w: Window, n: nat)
    ensures ReadAnswer(w, n) != Err(CorruptHistory)
  {
  }

  lemma KnownFacts(data: Data, windows: map<Pair, Working>, known: map<Pair, Window>, k: Pair)
    requires Coherent(data, windows, known) && k in windows && k in known
    ensures View(windows[k], known[k].log) == known[k] && WindowOk(known[k])
    ensures windows[k].header == HeaderOf(known[k]) && LoadedFromLog(windows[k], known[k].log)
    ensures windows[k].header.firstSequence + |windows[k].header.counts| == ChunksFor(|known[k].log|)
  {
    assert Means(data, windows, k, known[k]);
  }

  // ------------------------------------------------------------- read once

  /** No key was read twice, and every chunk read is still loaded, which is what
      keeps it from being read again. */
  ghost predicate ReadOnce(readKeys: seq<Key>, windows: map<Pair, Working>) {
    && NoDuplicates(readKeys)
    && (forall k :: HeaderKey(k) in readKeys ==> k in windows)
    && (forall k, slot :: ChunkKey(k, slot) in readKeys ==> k in windows && SlotLoaded(windows[k], slot))
  }

  ghost predicate SlotLoaded(s: Working, slot: nat) { exists q :: q in s.chunks && Slot(q) == slot }

  lemma ReadOnceOpen(readKeys: seq<Key>, windows: map<Pair, Working>, k: Pair, s: Working)
    requires ReadOnce(readKeys, windows) && k !in windows
    ensures ReadOnce(readKeys + [HeaderKey(k)], windows[k := s])
  {
  }

  /** Loading one more chunk, from a slot no loaded chunk occupies. */
  lemma ReadOnceLoad(readKeys: seq<Key>, windows: map<Pair, Working>, k: Pair, q: nat, c: Chunk)
    requires ReadOnce(readKeys, windows) && k in windows
    requires !SlotLoaded(windows[k], Slot(q))
    ensures ReadOnce(readKeys + [ChunkKey(k, Slot(q))],
                     windows[k := windows[k].(chunks := windows[k].chunks[q := c])])
  {
    var s, t := windows[k], windows[k].(chunks := windows[k].chunks[q := c]);
    assert q in t.chunks;
    forall j, slot | ChunkKey(j, slot) in readKeys + [ChunkKey(k, Slot(q))]
      ensures j in windows && (j == k ==> SlotLoaded(t, slot))
    {
      if ChunkKey(j, slot) in readKeys && j == k {
        var p :| p in s.chunks && Slot(p) == slot;
        assert p in t.chunks;
      }
    }
  }

  /** Replacing a working copy that keeps every loaded chunk. */
  lemma ReadOnceKeep(readKeys: seq<Key>, windows: map<Pair, Working>, k: Pair, s: Working)
    requires ReadOnce(readKeys, windows) && k in windows
    requires windows[k].chunks.Keys <= s.chunks.Keys
    ensures ReadOnce(readKeys, windows[k := s])
  {
    forall j, slot | ChunkKey(j, slot) in readKeys
      ensures j in windows && SlotLoaded(windows[k := s][j], slot)
    {
      assert SlotLoaded(windows[j], slot);
    }
  }

  lemma UnloadedSlot(w: Window, s: Working, q: nat)
    requires WindowOk(w) && Retained(w, q) && q !in s.chunks
    requires forall p :: p in s.chunks ==> Retained(w, p)
    ensures !SlotLoaded(s, Slot(q))
  {
    forall p | p in s.chunks ensures Slot(p) != Slot(q) {
      if Slot(p) == Slot(q) { SlotsDistinct(w, p, q); }
    }
  }

  lemma WithDepthKeepsUntouched(s: Working, depth: nat)
    requires HeaderShape(s.header) && depth <= MAX_DEPTH
    ensures s.chunks == map[] ==> WithDepth(s, depth).chunks == map[]
    ensures WithDepth(s, depth).dirtyChunk == s.dirtyChunk && WithDepth(s, depth).stored == s.stored
    ensures WithDepth(s, depth).header.requiredCount == depth
    ensures s.headerDirty ==> WithDepth(s, depth).headerDirty
  {
  }

  // ------------------------------------------------------------- write journal

  predicate OwnedBy(key: Key, pairs: set<Pair>) { (key.HeaderKey? || key.ChunkKey?) && key.pair in pairs }

  /** Every key was written at most once, deleted at most once, and never both. */
  ghost predicate Journal(written: seq<Key>, deleted: seq<Key>, pairs: set<Pair>) {
    && NoDuplicates(written) && NoDuplicates(deleted)
    && (forall key :: key in written ==> key !in deleted && OwnedBy(key, pairs))
    && (forall key :: key in deleted ==> OwnedBy(key, pairs))
  }

  lemma JournalExtends(written: seq<Key>, deleted: seq<Key>, pairs: set<Pair>, k: Pair, w: seq<Key>, d: seq<Key>)
    requires Journal(written, deleted, pairs) && k !in pairs
    requires Journal(w, d, {k})
    ensures Journal(written + w, deleted + d, pairs + {k})
  {
    ConcatNoDuplicates(written, w);
    ConcatNoDuplicates(deleted, d);
  }

  /** No key written twice, deleted twice, or both written and deleted. */
  ghost predicate TouchedOnce(written: seq<Key>, deleted: seq<Key>) {
    && NoDuplicates(written) && NoDuplicates(deleted)
    && forall key :: key in written ==> key !in deleted
  }

  lemma JournalWithIndex(written: seq<Key>, deleted: seq<Key>, pairs: set<Pair>, index: bool, version: bool)
    requires Journal(written, deleted, pairs)
    ensures TouchedOnce(written + (if index then [IndexKey] else []) + (if version then [VersionKey] else []), deleted)
  {
    var tail := (if index then [IndexKey] else []) + (if version then [VersionKey] else []);
    ConcatNoDuplicates(written, tail);
    assert written + (if index then [IndexKey] else []) + (if version then [VersionKey] else []) == written + tail;
  }

  function ChunkKeys(k: Pair, slots: seq<nat>): (keys: seq<Key>)
    ensures |keys| == |slots| && forall i :: 0 <= i < |slots| ==> keys[i] == ChunkKey(k, slots[i])
  {
    seq(|slots|, i requires 0 <= i < |slots| => ChunkKey(k, slots[i]))
  }

  function WrittenKeys(k: Pair, s: Working): seq<Key> {
    (if s.headerDirty then [HeaderKey(k)] else []) +
    (if s.dirtyChunk.Some? then [ChunkKey(k, Slot(s.dirtyChunk.value.sequence))] else [])
  }

  /** Slots ascend, and the slot of the rewritten chunk is never among them. */
  ghost predicate SlotsToDelete(s: Working, slots: seq<nat>) {
    && (set d | d in slots) == DeletedSlots(s)
    && forall i, j :: 0 <= i < j < |slots| ==> slots[i] < slots[j]
  }

  lemma WindowJournal(k: Pair, s: Working, slots: seq<nat>)
    requires SlotsToDelete(s, slots)
    ensures Journal(WrittenKeys(k, s), ChunkKeys(k, slots), {k})
  {
    forall i | 0 <= i < |slots| ensures slots[i] !in WrittenSlots(s) {
      assert slots[i] in set d | d in slots;
    }
  }

  lemma DeleteJournal(k: Pair, slots: seq<nat>)
    requires forall i, j :: 0 <= i < j < |slots| ==> slots[i] < slots[j]
    ensures Journal([], [HeaderKey(k)] + ChunkKeys(k, slots), {k})
  {
  }

  predicate Changed(s: Working) { s.headerDirty || s.dirtyChunk.Some? || DeletedSlots(s) != {} }

  lemma WrittenCell(c: Cell, s: Working, d: Cell)
    requires d.header == if s.headerDirty then Some(HeaderBytes(s.header)) else c.header
    requires d.slots == (if s.dirtyChunk.Some?
               then c.slots[Slot(s.dirtyChunk.value.sequence) := ChunkBytes(s.dirtyChunk.value)]
                         else c.slots) - DeletedSlots(s)
    ensures d == Written(c, s)
  {
    assert d.slots == Written(c, s).slots;
  }

  class HistoryStore {
    const kv: KeyValueState
    var windows: map<Pair, Working>
    var required: map<Pair, nat>
    var index: set<Pair>
    var corrupt: set<Pair>
    var layoutReset: bool
    var abandoned: nat

    // The window of each pair whose storage is well-formed, or was reset.
    ghost var known: map<Pair, Window>

    ghost predicate Valid()
      reads this, kv
    {
      && Coherent(kv.data, windows, known)
      && corrupt <= known.Keys && corrupt <= windows.Keys
      && (forall k :: k in corrupt ==> windows[k].headerDirty)
    }

    function RequiredOf(k: Pair): nat
      reads this
    {
      if k in required then required[k] else 0
    }

    /** A pair whose stored window is known, or that has nothing stored. Chunk
        sequences are 64-bit, which bounds the log a header can describe. */
    ghost predicate Sound(k: Pair)
      reads this, kv
    {
      if k in known then |known[k].log| <= MAX_UINT64
      else k !in windows && CellOf(kv.data, k) == EMPTY_CELL
    }

    ghost function Current(k: Pair): Window
      reads this
    {
      if k in known then known[k] else EMPTY_WINDOW
    }

    constructor (state: KeyValueState, keys: seq<Pair>, version: nat, ghost model: map<Pair, Window>)
      requires forall k :: k in model ==> CellHolds(CellOf(state.data, k), model[k])
      ensures Valid() && kv == state
      ensures windows == map[] && required == map[] && corrupt == {} && abandoned == 0
      ensures index == set k | k in keys
      ensures layoutReset == (version != LAYOUT_VERSION)
      ensures known == model
    {
      kv, windows, required, corrupt := state, map[], map[], {};
      index := set k | k in keys;
      layoutReset := version != LAYOUT_VERSION;
      abandoned := 0;
      known := model;
    }

    /** A layout change installs every indexed pair as an already-reset window,
        without reading its header. */
    method AbandonLayout(keys: seq<Pair>)
      requires Valid() && windows == map[] && required == map[] && corrupt == {}
      modifies this
      ensures Valid() && required == map[] && corrupt == {} && abandoned == |keys|
      ensures index == old(index) && layoutReset == old(layoutReset)
      ensures windows.Keys == set k | k in keys
      ensures forall k :: k in windows ==> windows[k] == ResetCopy()
      ensures known.Keys == old(known).Keys + windows.Keys
      ensures forall k :: k in known ==> known[k] == if k in windows then EMPTY_WINDOW else old(known)[k]
    {
      hide Coherent, Consistent, Tracks, CellHolds, WithDepth, Evicted, CellOf, View, ResetCopy, HeaderShape, Retains;
      abandoned := |keys|;
      for i := 0 to |keys|
        invariant Valid() && abandoned == |keys|
        invariant index == old(index) && layoutReset == old(layoutReset)
        invariant required == map[] && corrupt == {}
        invariant windows.Keys == set k | k in keys[..i]
        invariant forall k :: k in windows ==> windows[k] == ResetCopy()
        invariant known.Keys == old(known).Keys + windows.Keys
        invariant forall k :: k in known ==> known[k] == if k in windows then EMPTY_WINDOW else old(known)[k]
      {
        var w := new RingWindow.Reset();
        ResetMeans(kv.data, keys[i], 0);
        CoherentUpdate(kv.data, windows, known, keys[i], w.State(), EMPTY_WINDOW);
        windows := windows[keys[i] := w.State()];
        known := known[keys[i] := EMPTY_WINDOW];
        assert keys[..i + 1] == keys[..i] + [keys[i]];
      }
      assert keys[..|keys|] == keys;
    }

    /** Discards a pair's stored window; the replacement deletes every slot of the
        ring and starts warming again at the admitted depth. */
    method Reset(k: Pair)
      requires Valid()
      modifies this
      ensures Valid()
      ensures windows == old(windows)[k := Discarded(RequiredOf(k))] && Untouched(windows[k])
      ensures known == old(known)[k := Window([], 0, Admissible(RequiredOf(k)))]
      ensures corrupt == old(corrupt) + {k}
      ensures windows[k].header.requiredCount == if RequiredOf(k) <= 1024 then RequiredOf(k) else 0
      ensures required == old(required) && index == old(index)
      ensures layoutReset == old(layoutReset) && abandoned == old(abandoned)
    {
      hide Coherent, Consistent, Tracks, CellHolds, WithDepth, Evicted, CellOf, View, ResetCopy, HeaderShape, Retains;
      corrupt := corrupt + {k};
      var w := new RingWindow.Reset();
      var n := RequiredOf(k);
      ResetMeans(kv.data, k, Admissible(n));
      if n > 0 {
        var _ := w.SetRequiredCount(n);
      }
      CoherentUpdate(kv.data, windows, known, k, w.State(), Window([], 0, Admissible(n)));
      windows := windows[k := w.State()];
      known := known[k := Window([], 0, Admissible(n))];
    }

    /** Puts the working copy of a pair in place, reading its header on first use. */
    method OpenWindow(k: Pair)
      requires Valid()
      modifies this, kv`readKeys
      ensures Valid() && k in windows
      ensures required == old(required) && index == old(index)
      ensures layoutReset == old(layoutReset) && abandoned == old(abandoned)
      ensures k in corrupt && k !in old(corrupt) ==> windows[k].header.requiredCount == Admissible(RequiredOf(k))
      ensures k in old(windows) ==>
                windows == old(windows) && known == old(known) && corrupt == old(corrupt) &&
                    kv.readKeys == old(kv.readKeys)
      ensures k !in old(windows) ==>
                && windows == old(windows)[k := windows[k]]
                && kv.readKeys == old(kv.readKeys) + [HeaderKey(k)]
                && windows[k] == OpenedFrom(kv.data, k, RequiredOf(k)) && Untouched(windows[k])
                && corrupt == (if HeaderReading(Lookup(kv.data, HeaderKey(k))).Err? then old(corrupt) + {k}
                    else old(corrupt))
      ensures k !in old(windows) && old(Sound(k)) ==>
                known == old(known)[k := old(Current(k))] && corrupt == old(corrupt)
      ensures k !in old(windows) && !old(Sound(k)) ==>
                || (known == old(known) - {k} && corrupt == old(corrupt) && k !in corrupt)
                || (known == old(known)[k := Window([], 0, Admissible(RequiredOf(k)))] && corrupt == old(corrupt) + {k})
    {
      hide Coherent, Consistent, Tracks, CellHolds, WithDepth, Evicted, CellOf, View, ResetCopy, HeaderShape, Retains,
        HeaderOk;
      if k in windows {
        return;
      }
      ghost var sound := Sound(k);
      if sound { SoundHeaderReads(k); }
      var header := kv.ReadHeader(k);
      if header.Err? {
        Reset(k);
        return;
      }
      var w := new RingWindow(header.value);
      if sound {
        SoundOpens(k);
        CoherentUpdate(kv.data, windows, known, k, w.State(), Current(k));
        known := known[k := Current(k)];
      } else {
        CoherentUnknown(kv.data, windows, known, k, w.State());
        known := known - {k};
      }
      windows := windows[k := w.State()];
    }

    lemma SoundOpens(k: Pair)
      requires Valid() && k !in windows && Sound(k)
      ensures var s := Opened(if k in known then HeaderOf(known[k]) else EMPTY_HEADER);
              Tracks(CellOf(kv.data, k), s, Current(k).log) && View(s, Current(k).log) == Current(k)
    {
      if k in known { OpenedTracks(CellOf(kv.data, k), known[k]); } else { AbsentTracks(); }
    }

    /** Opens a window without disturbing what was read or is known. */
    method Open(k: Pair)
      requires Valid()
      modifies this, kv`readKeys
      ensures Valid() && k in windows && windows == old(windows)[k := windows[k]]
      ensures required == old(required) && index == old(index)
      ensures layoutReset == old(layoutReset) && abandoned == old(abandoned)
      ensures k in corrupt && k !in old(corrupt) ==> windows[k].header.requiredCount == Admissible(RequiredOf(k))
      ensures known - {k} == old(known) - {k} && corrupt - {k} == old(corrupt) - {k} && old(corrupt) <= corrupt
      ensures old(Sound(k)) ==> k in known && known[k] == old(Current(k)) && corrupt == old(corrupt)
      ensures if k in old(windows) then windows[k] == old(windows)[k] && corrupt == old(corrupt)
              else && Untouched(windows[k]) && windows[k] == OpenedFrom(kv.data, k, RequiredOf(k))
                   && corrupt == (if HeaderReading(Lookup(kv.data, HeaderKey(k))).Err? then old(corrupt) + {k}
                       else old(corrupt))
      ensures k in corrupt && k !in old(corrupt) ==> known[k] == Window([], 0, Admissible(RequiredOf(k)))
      ensures old(ReadOnce(kv.readKeys, windows)) ==> ReadOnce(kv.readKeys, windows)
    {
      hide Coherent, ReadOnce, CellOf;
      ghost var readKeys0, windows0 := kv.readKeys, windows;
      OpenWindow(k);
      if k !in windows0 && ReadOnce(readKeys0, windows0) { ReadOnceOpen(readKeys0, windows0, k, windows[k]); }
    }

    /** A sound pair's header decodes to the window it means. */
    lemma SoundHeaderReads(k: Pair)
      requires Valid() && k !in windows && Sound(k)
      ensures HeaderReading(Lookup(kv.data, HeaderKey(k)))
           == Ok(if k in known then Some(HeaderOf(known[k])) else None)
    {
      if k in known {
        HeaderOfDecodes(known[k]);
      }
    }

    /** Changes the depth of an opened window. */
    method ChangeDepth(k: Pair, n: nat) returns (ok: bool)
      requires Valid() && k in windows && windows[k].dirtyChunk.None?
      modifies this`windows, this`known
      ensures Valid() && k in windows && windows == old(windows)[k := windows[k]]
      ensures ok == (n <= MAX_DEPTH)
      ensures known - {k} == old(known) - {k} && (k in known <==> k in old(known))
      ensures ok ==> windows[k].header.requiredCount == n
      ensures HeaderShape(old(windows)[k].header)
      ensures ok ==> windows[k] == WithDepth(old(windows)[k], n)
      ensures ok && k in known ==> known[k] == SetDepth(old(known)[k], n) && known[k].depth == n
      ensures old(Untouched(windows[k])) ==> Untouched(windows[k])
    {
      hide Coherent, Consistent, Tracks, CellHolds, WithDepth, CellOf, HeaderShape, Retains, SetDepth, View, Evicted;
      CoherentConsistent(kv.data, windows, known, k);
      var w := new RingWindow.Resume(windows[k]);
      var r := w.SetRequiredCount(n);
      ok := r.Ok?;
      if !ok {
        return;
      }
      WithDepthKeepsUntouched(windows[k], n);
      if k in known {
        KnownDepth(kv.data, windows, known, k, n);
        CoherentUpdate(kv.data, windows, known, k, w.State(), SetDepth(known[k], n));
        known := known[k := SetDepth(known[k], n)];
      } else {
        CoherentUnknown(kv.data, windows, known, k, w.State());
        assert known - {k} == known;
      }
      windows := windows[k := w.State()];
    }

    /** Sets a pair's depth for this round. Depths are set before anything is appended. */
    method SetRequired(k: Pair, n: nat) returns (ok: bool)
      requires Valid()
      requires k in windows ==> windows[k].dirtyChunk.None?
      modifies this, kv`readKeys
      ensures Valid() && k in windows && windows == old(windows)[k := windows[k]]
      ensures ok == (n <= MAX_DEPTH)
      ensures required == old(required)[k := n]
      ensures index == old(index) && layoutReset == old(layoutReset) && abandoned == old(abandoned)
      ensures known - {k} == old(known) - {k} && corrupt - {k} == old(corrupt) - {k} && old(corrupt) <= corrupt
      ensures ok ==> windows[k].header.requiredCount == n && (k in known ==> known[k].depth == n)
      ensures ok ==>
                var s := if k in old(windows) then old(windows)[k] else OpenedFrom(kv.data, k, n);
                HeaderShape(s.header) && windows[k] == WithDepth(s, n)
      ensures if k in old(windows) then corrupt == old(corrupt)
              else corrupt == if HeaderReading(Lookup(kv.data, HeaderKey(k))).Err? then old(corrupt) + {k}
                  else old(corrupt)
      ensures ok && k in corrupt && k !in old(corrupt) ==> known[k] == SetDepth(Window([], 0, n), n)
      ensures ok && old(Sound(k)) ==>
                k in known && known[k] == SetDepth(old(Current(k)), n) && corrupt == old(corrupt)
      ensures (k in old(windows) ==> old(Untouched(windows[k]))) ==> Untouched(windows[k])
      ensures old(ReadOnce(kv.readKeys, windows)) && (k in old(windows) ==> old(Untouched(windows[k]))) ==>
                ReadOnce(kv.readKeys, windows)
    {
      hide Coherent, CellOf, ReadOnce, SetDepth;
      required := required[k := n];
      Open(k);
      ghost var windows1 := windows;
      ok := ChangeDepth(k, n);
      if ReadOnce(kv.readKeys, windows1) && Untouched(windows1[k]) {
        ReadOnceKeep(kv.readKeys, windows1, k, windows[k]);
      }
    }

    /** Reads one planned chunk into an opened window, unless it is already there.
        A missing or mismatching chunk discards the whole window. */
    method LoadChunk(k: Pair, q: nat) returns (ok: bool)
      requires Valid() && k in windows && Names(windows[k].header, q)
      modifies this, kv`readKeys
      ensures Valid() && k in windows && windows == old(windows)[k := windows[k]]
      ensures required == old(required) && index == old(index)
      ensures layoutReset == old(layoutReset) && abandoned == old(abandoned)
      ensures k in corrupt && k !in old(corrupt) ==> windows[k].header.requiredCount == Admissible(RequiredOf(k))
      ensures windows[k].header.requiredCount in {old(windows)[k].header.requiredCount, Admissible(RequiredOf(k))}
      ensures ok ==> windows[k] == old(windows)[k].(chunks := windows[k].chunks)
      ensures ok ==> known == old(known) && corrupt == old(corrupt)
      ensures ok && k in known ==> windows[k].chunks.Keys == old(windows)[k].chunks.Keys + {q}
      ensures !ok ==>
                && Untouched(windows[k]) && corrupt == old(corrupt) + {k} && windows[k] == Discarded(RequiredOf(k))
                && known == old(known)[k := Window([], 0, Admissible(RequiredOf(k)))]
      ensures HeaderShape(old(windows)[k].header)
      ensures q in old(windows)[k].chunks ==> ok && windows == old(windows)
      ensures q !in old(windows)[k].chunks ==>
                (if ok then Some(windows[k]) else None) ==
                GatheredOne(kv.data, k, old(windows)[k].header, old(windows)[k], q)
      ensures k in old(known) ==> ok
      ensures k in old(known) && old(ReadOnce(kv.readKeys, windows)) ==> ReadOnce(kv.readKeys, windows)
    {
      hide Coherent, Consistent, Tracks, CellHolds, CellOf, ReadOnce, ResetCopy, WithDepth, SlotLoaded, ChunkOf, View,
        Matches, HeaderShape;
      CoherentConsistent(kv.data, windows, known, k);
      if q in windows[k].chunks {
        return true;
      }
      ghost var readKeys0, known0 := kv.readKeys, known;
      if k in known { KnownChunk(kv.data, windows, known, k, q); }
      var read := kv.ReadChunk(k, Slot(q));
      if read.Err? || read.value.None? {
        Reset(k);
        return false;
      }
      var w := new RingWindow.Resume(windows[k]);
      var accepted := w.Provide(read.value.value);
      if !accepted {
        Reset(k);
        return false;
      }
      if k in known {
        CoherentUpdate(kv.data, windows, known, k, w.State(), known[k]);
        assert known[k := known[k]] == known;
        if ReadOnce(readKeys0, windows) { ReadOnceLoad(readKeys0, windows, k, q, read.value.value); }
      } else {
        CoherentUnknown(kv.data, windows, known, k, w.State());
        assert known - {k} == known;
      }
      windows := windows[k := w.State()];
      ok := true;
    }

    /** Reads the planned chunks of an opened window. */
    method Provide(k: Pair, sequences: seq<nat>) returns (ok: bool)
      requires Valid() && k in windows
      requires forall q :: q in sequences ==> Names(windows[k].header, q)
      modifies this, kv`readKeys
      ensures Valid() && k in windows && windows == old(windows)[k := windows[k]]
      ensures required == old(required) && index == old(index)
      ensures layoutReset == old(layoutReset) && abandoned == old(abandoned)
      ensures k in corrupt && k !in old(corrupt) ==> windows[k].header.requiredCount == Admissible(RequiredOf(k))
      ensures windows[k].header.requiredCount in {old(windows)[k].header.requiredCount, Admissible(RequiredOf(k))}
      ensures ok ==> windows[k] == old(windows)[k].(chunks := windows[k].chunks)
      ensures ok ==> known == old(known) && corrupt == old(corrupt)
      ensures ok && k in known ==> windows[k].chunks.Keys == old(windows)[k].chunks.Keys + set q | q in sequences
      ensures !ok ==>
                && Untouched(windows[k]) && corrupt == old(corrupt) + {k} && windows[k] == Discarded(RequiredOf(k))
                && known == old(known)[k := Window([], 0, Admissible(RequiredOf(k)))]
      ensures HeaderShape(old(windows)[k].header)
      ensures (if ok then Some(windows[k]) else None) == Gathered(kv.data, k, old(windows)[k], sequences)
      ensures k in old(known) ==> ok
      ensures k in old(known) && old(ReadOnce(kv.readKeys, windows)) ==> ReadOnce(kv.readKeys, windows)
    {
      hide Coherent, ReadOnce, Discarded, GatheredOne, HeaderShape, Consistent, Gathered;
      CoherentConsistent(kv.data, windows, known, k);
      ghost var s := windows[k];
      NoneGathered(kv.data, k, s);
      assert sequences[..0] == [];
      for i := 0 to |sequences|
        invariant Valid() && k in windows && windows == old(windows)[k := windows[k]]
        invariant required == old(required) && index == old(index)
        invariant layoutReset == old(layoutReset) && abandoned == old(abandoned)
        invariant windows[k] == old(windows)[k].(chunks := windows[k].chunks)
        invariant known == old(known) && corrupt == old(corrupt)
        invariant Gathered(kv.data, k, s, sequences[..i]) == Some(windows[k])
        invariant k in known ==> windows[k].chunks.Keys == old(windows)[k].chunks.Keys + set q | q in sequences[..i]
        invariant k in known && old(ReadOnce(kv.readKeys, windows)) ==> ReadOnce(kv.readKeys, windows)
      {
        assert sequences[..i + 1] == sequences[..i] + [sequences[i]];
        GatherNext(kv.data, k, s, sequences, i, windows[k]);
        var loaded := LoadChunk(k, sequences[i]);
        if !loaded {
          NoMoreGathered(kv.data, k, s, sequences, i + 1);
          return false;
        }
      }
      assert sequences[..|sequences|] == sequences;
      ok := true;
    }

    /** Appends to a window whose newest chunk, if it has room, is loaded. */
    method AppendOpened(k: Pair, at: nat, value: Option<StoredValue>) returns (r: Result<bool, HistoryError>)
      requires Valid() && k in windows
      modifies this`windows, this`known
      ensures Valid() && k in windows && windows == old(windows)[k := windows[k]]
      ensures known - {k} == old(known) - {k}
      ensures windows[k].header.requiredCount == old(windows)[k].header.requiredCount
      ensures r == AppendAnswer(old(windows)[k], at, value)
      ensures r != Ok(true) ==> windows == old(windows) && known == old(known)
      ensures k in old(known) && value.Some? && Appendable(old(windows)[k]) ==>
                && k in known && known[k] == AppendTo(old(known)[k], Record(at, value.value))
                && (r == Ok(true) <==> Accepts(old(known)[k], Record(at, value.value)))
                && r in {Ok(true), Ok(false), Err(RecordTooLarge)}
                && old(windows)[k].chunks.Keys <= windows[k].chunks.Keys
    {
      hide Coherent, Consistent, Tracks, CellHolds, CellOf, AppendTo, Accepts, HeaderShape, Stored, Evicted, View,
        RecordBytes;
      CoherentConsistent(kv.data, windows, known, k);
      var w := new RingWindow.Resume(windows[k]);
      r := w.Append(at, value);
      if value.Some? && k in known && (r == Ok(true) || Appendable(windows[k])) {
        KnownAppend(kv.data, windows, known, k, Record(at, value.value));
        RejectedAppend(known[k], Record(at, value.value));
      }
      if r != Ok(true) {
        return;
      }
      StoredIsDirty(windows[k], Record(at, value.value));
      if Appendable(windows[k]) { AppendKeepsTail(windows[k], Record(at, value.value)); }
      if k in known {
        CoherentUpdate(kv.data, windows, known, k, w.State(), AppendTo(known[k], Record(at, value.value)));
        known := known[k := AppendTo(known[k], Record(at, value.value))];
      } else {
        CoherentUnknown(kv.data, windows, known, k, w.State());
        assert known - {k} == known;
      }
      windows := windows[k := w.State()];
    }

    /** Opens a pair's window and loads what an append needs. */
    method LoadTail(k: Pair)
      requires Valid()
      modifies this, kv`readKeys
      ensures Valid() && k in windows && windows == old(windows)[k := windows[k]]
      ensures required == old(required) && index == old(index)
      ensures layoutReset == old(layoutReset) && abandoned == old(abandoned)
      ensures k in old(windows) ==>
                windows[k].header.requiredCount in {old(windows)[k].header.requiredCount, Admissible(RequiredOf(k))}
      ensures known - {k} == old(known) - {k} && corrupt - {k} == old(corrupt) - {k} && old(corrupt) <= corrupt
      ensures old(Sound(k)) ==> k in known && known[k] == old(Current(k)) && corrupt == old(corrupt)
      ensures old(Sound(k)) && (k in old(windows) ==> old(Untouched(windows[k]))) ==> Appendable(windows[k])
      ensures k in corrupt && k !in old(corrupt) ==>
                Appendable(windows[k]) && known[k] == Window([], 0, Admissible(RequiredOf(k)))
      ensures k in old(windows) ==>
                HeaderShape(old(windows)[k].header) &&
                    windows[k] == TailLoaded(kv.data, k, old(windows)[k], RequiredOf(k))
      ensures old(ReadOnce(kv.readKeys, windows)) && old(Sound(k)) ==> ReadOnce(kv.readKeys, windows)
    {
      hide Coherent, CellOf, ReadOnce, TailHasRoom, Appendable, Discarded, HeaderShape, OpenedFrom, TailLoaded;
      Open(k);
      DiscardedIsAppendable(RequiredOf(k));
      if k !in old(windows) { OpenedFromErr(kv.data, k, RequiredOf(k)); }
      LoadOpenedTail(k);
    }

    /** Loads the newest chunk of an opened window if it has room. */
    method LoadOpenedTail(k: Pair)
      requires Valid() && k in windows
      modifies this, kv`readKeys
      ensures Valid() && k in windows && windows == old(windows)[k := windows[k]]
      ensures required == old(required) && index == old(index)
      ensures layoutReset == old(layoutReset) && abandoned == old(abandoned)
      ensures windows[k].header.requiredCount in {old(windows)[k].header.requiredCount, Admissible(RequiredOf(k))}
      ensures known - {k} == old(known) - {k} && corrupt - {k} == old(corrupt) - {k} && old(corrupt) <= corrupt
      ensures k in old(known) ==> known == old(known) && corrupt == old(corrupt)
      ensures k in old(known) && old(Untouched(windows[k])) ==> Appendable(windows[k])
      ensures k in corrupt && k !in old(corrupt) ==>
                Appendable(windows[k]) && known[k] == Window([], 0, Admissible(RequiredOf(k)))
      ensures HeaderShape(old(windows)[k].header)
      ensures windows[k] == TailLoaded(kv.data, k, old(windows)[k], RequiredOf(k))
      ensures old(ReadOnce(kv.readKeys, windows)) && k in old(known) ==> ReadOnce(kv.readKeys, windows)
    {
      hide Coherent, CellOf, ReadOnce, TailHasRoom, Appendable, Discarded, Gathered, HeaderShape, Untouched;
      DiscardedIsAppendable(RequiredOf(k));
      var plan := PlanTail(k);
      ghost var s := windows[k];
      var loaded := Provide(k, plan);
      if loaded && k in known && Untouched(s) { AppendableOnceLoaded(s, windows[k], plan); }
    }

    method PlanTail(k: Pair) returns (plan: seq<nat>)
      requires Valid() && k in windows
      ensures plan == if windows[k].header.requiredCount > 0 && TailHasRoom(windows[k].header)
                      then [TailSequence(windows[k].header)] else []
      ensures forall q :: q in plan ==> Names(windows[k].header, q)
    {
      hide Coherent, Consistent;
      CoherentConsistent(kv.data, windows, known, k);
      var planner := new RingWindow.Resume(windows[k]);
      plan := planner.AppendPlan();
    }

    /** Records a pair's agreed value for this round. */
    method Append(k: Pair, at: nat, value: Option<StoredValue>) returns (r: Result<bool, HistoryError>)
      requires Valid()
      modifies this, kv`readKeys
      ensures Valid() && k in windows && windows == old(windows)[k := windows[k]]
      ensures required == old(required) && index == old(index)
      ensures layoutReset == old(layoutReset) && abandoned == old(abandoned)
      ensures k in old(windows) ==>
                windows[k].header.requiredCount in {old(windows)[k].header.requiredCount, Admissible(RequiredOf(k))}
      ensures known - {k} == old(known) - {k} && corrupt - {k} == old(corrupt) - {k} && old(corrupt) <= corrupt
      ensures value.None? ==> r == Err(NilStreamValue)
      ensures k in old(windows) ==>
                && HeaderShape(old(windows)[k].header)
                && r == AppendAnswer(TailLoaded(kv.data, k, old(windows)[k], RequiredOf(k)), at, value)
      ensures value.Some? && k in corrupt && k !in old(corrupt) ==>
                k in known && known[k] == AppendTo(Window([], 0, Admissible(RequiredOf(k))), Record(at, value.value))
      ensures value.Some? && old(Sound(k)) && (k in old(windows) ==> old(Untouched(windows[k]))) ==>
                && k in known && known[k] == AppendTo(old(Current(k)), Record(at, value.value)) &&
                    corrupt == old(corrupt)
                && (r == Ok(true) <==> Accepts(old(Current(k)), Record(at, value.value)))
                && r in {Ok(true), Ok(false), Err(RecordTooLarge)}
      ensures old(ReadOnce(kv.readKeys, windows)) && old(Sound(k)) &&
                (k in old(windows) ==> old(Untouched(windows[k]))) ==>
                value.Some? ==> ReadOnce(kv.readKeys, windows)
    {
      hide Coherent, ReadOnce, AppendTo, Accepts, Appendable, CellOf, TailLoaded, HeaderShape;
      LoadTail(k);
      ghost var windows1 := windows;
      r := AppendOpened(k, at, value);
      if ReadOnce(kv.readKeys, windows1) && windows1[k].chunks.Keys <= windows[k].chunks.Keys {
        ReadOnceKeep(kv.readKeys, windows1, k, windows[k]);
      }
    }

    /** Reads the newest records of an opened window whose planned chunks are loaded. */
    method ReadOpened(k: Pair, n: nat) returns (r: Result<seq<Record>, HistoryError>)
      requires Valid() && k in windows
      ensures Total(windows[k].header.counts) < n ==> r == Err(InsufficientHistory)
      ensures n == 0 ==> r == Ok([])
      ensures r == Err(ChunkNotLoaded) <==> 0 < n <= Total(windows[k].header.counts) && ReadGap(windows[k], n)
      ensures k in known && (0 < n <= Total(windows[k].header.counts) ==> PlanLoaded(windows[k], n)) ==>
                r == ReadAnswer(known[k], n)
    {
      hide Coherent, Consistent, HeaderShape, Joined, SeamsOk, PlanStart, HeaderOf, WindowOk, LoadedFromLog, View,
        ReadGap;
      CoherentConsistent(kv.data, windows, known, k);
      var w := new RingWindow.Resume(windows[k]);
      r := w.Newest(n);
      if k in known {
        assert LastN(known[k].log, 0) == [];
        KnownTotal(kv.data, windows, known, k);
        if 0 < n <= Total(windows[k].header.counts) && PlanLoaded(windows[k], n) {
          KnownFacts(kv.data, windows, known, k);
          NewestIsLogTail(windows[k], known[k].log, n,
              windows[k].header.firstSequence + PlanStart(windows[k].header, n));
        }
      }
    }

    /** Loads the chunks covering the newest `n` records of an opened window. */
    method LoadPlan(k: Pair, n: nat) returns (enough: bool)
      requires Valid() && k in windows
      modifies this, kv`readKeys
      ensures Valid() && k in windows && windows == old(windows)[k := windows[k]]
      ensures required == old(required) && index == old(index)
      ensures layoutReset == old(layoutReset) && abandoned == old(abandoned)
      ensures k in corrupt && k !in old(corrupt) ==> windows[k].header.requiredCount == Admissible(RequiredOf(k))
      ensures windows[k].header.requiredCount in {old(windows)[k].header.requiredCount, Admissible(RequiredOf(k))}
      ensures known - {k} == old(known) - {k} && corrupt - {k} == old(corrupt) - {k} && old(corrupt) <= corrupt
      ensures enough == (n <= Total(old(windows)[k].header.counts))
      ensures !enough ==> windows == old(windows) && known == old(known) && corrupt == old(corrupt)
      ensures HeaderShape(old(windows)[k].header)
      ensures enough ==>
                var t := Gathered(kv.data, k, old(windows)[k], PlanOf(old(windows)[k].header, n));
                && windows[k] == (if t.Some? then t.value else Discarded(RequiredOf(k)))
                && (t.Some? ==> corrupt == old(corrupt) && windows[k] == old(windows)[k].(chunks := windows[k].chunks))
      ensures k in corrupt && k !in old(corrupt) ==>
                && known[k] == Window([], 0, Admissible(RequiredOf(k))) && windows[k] == Discarded(RequiredOf(k))
                && old(windows)[k].header.counts != []
      ensures k in old(known) ==>
                && known == old(known) && corrupt == old(corrupt)
                && windows[k] == old(windows)[k].(chunks := windows[k].chunks)
                && (enough && n > 0 ==> PlanLoaded(windows[k], n))
      ensures k in old(known) && old(ReadOnce(kv.readKeys, windows)) ==> ReadOnce(kv.readKeys, windows)
    {
      hide Coherent, Consistent, PlanStart, HeaderShape, ReadOnce, Gathered, Discarded, Total;
      CoherentConsistent(kv.data, windows, known, k);
      NoneGathered(kv.data, k, windows[k]);
      var planner := new RingWindow.Resume(windows[k]);
      var plan := planner.ReadPlan(n);
      if plan.Err? {
        return false;
      }
      if n > 0 {
        SpanHolds(windows[k].header.firstSequence + PlanStart(windows[k].header, n),
                  windows[k].header.firstSequence + |windows[k].header.counts|);
      }
      var _ := Provide(k, plan.value);
      enough := true;
    }

    /** The newest `n` records of a pair, oldest first. */
    method Series(k: Pair, n: nat) returns (r: Result<seq<Record>, HistoryError>)
      requires Valid()
      modifies this, kv`readKeys
      ensures Valid() && k in windows && windows == old(windows)[k := windows[k]]
      ensures required == old(required) && index == old(index)
      ensures layoutReset == old(layoutReset) && abandoned == old(abandoned)
      ensures k in corrupt && k !in old(corrupt) ==> windows[k].header.requiredCount == Admissible(RequiredOf(k))
      ensures k in old(windows) ==>
                windows[k].header.requiredCount in {old(windows)[k].header.requiredCount, Admissible(RequiredOf(k))}
      ensures known - {k} == old(known) - {k} && corrupt - {k} == old(corrupt) - {k} && old(corrupt) <= corrupt
      ensures old(Sound(k)) ==>
                && k in known && known[k] == old(Current(k)) && corrupt == old(corrupt)
                && r == ReadAnswer(old(Current(k)), n)
                && (k in old(windows) ==> windows[k] == old(windows)[k].(chunks := windows[k].chunks))
      ensures var s := if k in old(windows) then old(windows)[k] else OpenedFrom(kv.data, k, RequiredOf(k));
              && HeaderShape(s.header)
              && (r == Err(ChunkNotLoaded) <==> Misread(kv.data, k, s, n))
              && (windows[k].header == s.header || windows[k].header.counts == [])
              && (k in corrupt && k !in old(corrupt) ==>
                    s.header.counts != [] || HeaderReading(Lookup(kv.data, HeaderKey(k))).Err?)
      ensures k !in old(windows) && HeaderReading(Lookup(kv.data, HeaderKey(k))).Err? ==> k in corrupt
      ensures r == Err(ChunkNotLoaded) ==> corrupt == old(corrupt)
      ensures k in corrupt && k !in old(corrupt) ==> known[k] == Window([], 0, Admissible(RequiredOf(k)))
      ensures old(ReadOnce(kv.readKeys, windows)) && old(Sound(k)) ==> ReadOnce(kv.readKeys, windows)
    {
      hide Coherent, CellOf, ReadOnce, ReadAnswer, Discarded, Misread, OpenedFrom, HeaderShape;
      Open(k);
      if k !in old(windows) {
        OpenedFromErr(kv.data, k, RequiredOf(k));
        DiscardedNeverMisread(kv.data, k, RequiredOf(k), n);
      }
      r := ReadWindow(k, n);
    }

    /** The newest `n` records of an opened window. A window found corrupt is discarded. */
    method ReadWindow(k: Pair, n: nat) returns (r: Result<seq<Record>, HistoryError>)
      requires Valid() && k in windows
      modifies this, kv`readKeys
      ensures Valid() && k in windows && windows == old(windows)[k := windows[k]]
      ensures required == old(required) && index == old(index)
      ensures layoutReset == old(layoutReset) && abandoned == old(abandoned)
      ensures windows[k].header.requiredCount in {old(windows)[k].header.requiredCount, Admissible(RequiredOf(k))}
      ensures known - {k} == old(known) - {k} && corrupt - {k} == old(corrupt) - {k} && old(corrupt) <= corrupt
      ensures k in old(known) ==>
                && known == old(known) && corrupt == old(corrupt) && r == ReadAnswer(old(known)[k], n)
                && windows[k] == old(windows)[k].(chunks := windows[k].chunks)
      ensures HeaderShape(old(windows)[k].header) &&
                (r == Err(ChunkNotLoaded) <==> Misread(kv.data, k, old(windows)[k], n))
      ensures windows[k].header == old(windows)[k].header || windows[k].header.counts == []
      ensures r == Err(ChunkNotLoaded) ==> corrupt == old(corrupt)
      ensures k in corrupt && k !in old(corrupt) ==>
                && old(windows)[k].header.counts != [] && known[k] == Window([], 0, Admissible(RequiredOf(k)))
                && windows[k].header.requiredCount == Admissible(RequiredOf(k))
      ensures old(ReadOnce(kv.readKeys, windows)) && k in old(known) ==> ReadOnce(kv.readKeys, windows)
    {
      hide Coherent, CellOf, ReadOnce, ReadAnswer, PlanLoaded, ResetCopy, WithDepth, Total, Gathered, HeaderShape,
        ReadGap, Discarded;
      DiscardedReads(RequiredOf(k));
      if k in known { ShortRead(kv.data, windows, known, k, n); }
      var enough := LoadPlan(k, n);
      if !enough {
        return Err(InsufficientHistory);
      }
      r := ReadOpened(k, n);
      if r == Err(CorruptHistory) {
        if k in known { NeverCorrupt(known[k], n); }
        Reset(k);
      }
    }

    // --------------------------------------------------------------- flushing

    method DeleteSlots(k: Pair, slots: seq<nat>)
      modifies kv`data, kv`deletedKeys
      ensures CellOf(kv.data, k) ==
              CellOf(old(kv.data), k).(slots := CellOf(old(kv.data), k).slots - set d | d in slots)
      ensures forall j :: j != k ==> CellOf(kv.data, j) == CellOf(old(kv.data), j)
      ensures Lookup(kv.data, IndexKey) == Lookup(old(kv.data), IndexKey)
      ensures Lookup(kv.data, VersionKey) == Lookup(old(kv.data), VersionKey)
      ensures kv.deletedKeys == old(kv.deletedKeys) + ChunkKeys(k, slots)
    {
      hide CellOf;
      for i := 0 to |slots|
        invariant CellOf(kv.data, k) ==
                  CellOf(old(kv.data), k).(slots := CellOf(old(kv.data), k).slots - set d | d in slots[..i])
        invariant forall j :: j != k ==> CellOf(kv.data, j) == CellOf(old(kv.data), j)
        invariant Lookup(kv.data, IndexKey) == Lookup(old(kv.data), IndexKey)
        invariant Lookup(kv.data, VersionKey) == Lookup(old(kv.data), VersionKey)
        invariant kv.deletedKeys == old(kv.deletedKeys) + ChunkKeys(k, slots)[..i]
      {
        ChunkDeleted(kv.data, k, slots[i]);
        kv.Delete(ChunkKey(k, slots[i]));
        assert slots[..i + 1] == slots[..i] + [slots[i]];
      }
      assert slots[..|slots|] == slots;
    }

    /** Writes one window's header and newest chunk, then deletes what fell out. */
    method FlushWindow(k: Pair, ghost pairs: set<Pair>) returns (changed: bool)
      requires k in windows && Consistent(windows[k])
      requires Journal(kv.writtenKeys, kv.deletedKeys, pairs) && k !in pairs
      modifies kv`data, kv`writtenKeys, kv`deletedKeys
      ensures changed == Changed(windows[k])
      ensures CellOf(kv.data, k) == Written(CellOf(old(kv.data), k), windows[k])
      ensures forall j :: j != k ==> CellOf(kv.data, j) == CellOf(old(kv.data), j)
      ensures Lookup(kv.data, IndexKey) == Lookup(old(kv.data), IndexKey)
      ensures Lookup(kv.data, VersionKey) == Lookup(old(kv.data), VersionKey)
      ensures Journal(kv.writtenKeys, kv.deletedKeys, pairs + {k})
    {
      hide CellOf, Written, Journal, Consistent;
      var w := new RingWindow.Resume(windows[k]);
      var ws := w.WriteSet();
      assert SlotsToDelete(windows[k], ws.deletedSlots);
      WindowJournal(k, windows[k], ws.deletedSlots);
      JournalExtends(kv.writtenKeys, kv.deletedKeys, pairs, k, WrittenKeys(k, windows[k]),
          ChunkKeys(k, ws.deletedSlots));
      assert ws.deletedSlots != [] ==> ws.deletedSlots[0] in DeletedSlots(windows[k]);
      changed := !(ws.header.None? && ws.chunk.None? && |ws.deletedSlots| == 0);
      ghost var written0 := kv.writtenKeys;
      if ws.header.Some? {
        HeaderWritten(kv.data, k, HeaderBytes(ws.header.value));
        kv.Write(HeaderKey(k), HeaderBytes(ws.header.value));
      }
      if ws.chunk.Some? {
        ChunkWritten(kv.data, k, Slot(ws.chunk.value.sequence), ChunkBytes(ws.chunk.value));
        kv.Write(ChunkKey(k, Slot(ws.chunk.value.sequence)), ChunkBytes(ws.chunk.value));
      }
      assert kv.writtenKeys == written0 + WrittenKeys(k, windows[k]);
      DeleteSlots(k, ws.deletedSlots);
      WrittenCell(CellOf(old(kv.data), k), windows[k], CellOf(kv.data, k));
    }

    /** Removes every key of a pair: the slots its torn-down window held, or the
        whole ring when the pair was never opened. */
    method DeleteWindow(k: Pair, ghost pairs: set<Pair>)
      requires k in windows ==> Consistent(windows[k])
      requires Journal(kv.writtenKeys, kv.deletedKeys, pairs) && k !in pairs
      modifies kv`data, kv`deletedKeys
      ensures CellOf(kv.data, k) == Removed(CellOf(old(kv.data), k), k)
      ensures forall j :: j != k ==> CellOf(kv.data, j) == CellOf(old(kv.data), j)
      ensures Lookup(kv.data, IndexKey) == Lookup(old(kv.data), IndexKey)
      ensures Lookup(kv.data, VersionKey) == Lookup(old(kv.data), VersionKey)
      ensures Journal(kv.writtenKeys, kv.deletedKeys, pairs + {k})
    {
      hide CellOf, Written, Journal, Consistent;
      ghost var deleted0 := kv.deletedKeys;
      HeaderDeleted(kv.data, k);
      kv.Delete(HeaderKey(k));
      var slots := AllSlots();
      if k in windows {
        var w := new RingWindow.Resume(windows[k]);
        var ws := w.WriteSet();
        slots := ws.deletedSlots;
      }
      DeleteJournal(k, slots);
      JournalExtends(kv.writtenKeys, deleted0, pairs, k, [], [HeaderKey(k)] + ChunkKeys(k, slots));
      DeleteSlots(k, slots);
      assert kv.writtenKeys + [] == kv.writtenKeys;
      assert kv.deletedKeys == deleted0 + ([HeaderKey(k)] + ChunkKeys(k, slots));
    }

    ghost function Removed(c: Cell, k: Pair): Cell
      reads this`windows
    {
      Cell(None, c.slots - if k in windows then DeletedSlots(windows[k]) else set d | d in AllSlots())
    }

    ghost predicate Kept(k: Pair)
      reads this`windows
    {
      k in windows && windows[k].header.requiredCount > 0
    }

    ghost function KeptPairs(): set<Pair>
      reads this`windows
    {
      set k | k in windows && windows[k].header.requiredCount > 0
    }

    /** Persists every window with a depth, in sorted order. */
    method FlushWindows() returns (grew: bool)
      requires Valid() && Journal(kv.writtenKeys, kv.deletedKeys, {})
      modifies kv`data, kv`writtenKeys, kv`deletedKeys, this`index
      ensures forall k :: Kept(k) ==> CellOf(kv.data, k) == Written(CellOf(old(kv.data), k), windows[k])
      ensures forall k :: !Kept(k) ==> CellOf(kv.data, k) == CellOf(old(kv.data), k)
      ensures index == old(index) + set k | k in windows && Kept(k) && Changed(windows[k])
      ensures grew == (index != old(index))
      ensures Lookup(kv.data, IndexKey) == Lookup(old(kv.data), IndexKey)
      ensures Lookup(kv.data, VersionKey) == Lookup(old(kv.data), VersionKey)
      ensures Journal(kv.writtenKeys, kv.deletedKeys, KeptPairs())
    {
      hide CellOf, Written, Journal, Consistent, Coherent, Changed, SortedBy, NoDuplicates, Lookup;
      AllConsistent();
      var keys := SortPairs(windows.Keys);
      grew := false;
      ghost var done: set<Pair> := {};
      for i := 0 to |keys|
        invariant forall k :: k in done <==> k in keys[..i] && Kept(k)
        invariant forall k :: k in done ==>
                    k in windows && CellOf(kv.data, k) == Written(CellOf(old(kv.data), k), windows[k])
        invariant forall k :: k !in done ==> CellOf(kv.data, k) == CellOf(old(kv.data), k)
        invariant forall k :: k in index <==> k in old(index) || (k in done && k in windows && Changed(windows[k]))
        invariant grew == (index != old(index))
        invariant Lookup(kv.data, IndexKey) == Lookup(old(kv.data), IndexKey)
        invariant Lookup(kv.data, VersionKey) == Lookup(old(kv.data), VersionKey)
        invariant Journal(kv.writtenKeys, kv.deletedKeys, done)
      {
        var k := keys[i];
        NextUnseen(keys, i);
        assert k in keys;
        if windows[k].header.requiredCount == 0 {
          continue;
        }
        var added := FlushIndexed(k, done);
        done := done + {k};
        grew := grew || added;
      }
      assert keys[..|keys|] == keys;
      assert done == KeptPairs();
    }

    /** Flushes one window and indexes its pair if anything of it was written. */
    method FlushIndexed(k: Pair, ghost pairs: set<Pair>) returns (added: bool)
      requires Kept(k) && Consistent(windows[k])
      requires Journal(kv.writtenKeys, kv.deletedKeys, pairs) && k !in pairs
      modifies kv`data, kv`writtenKeys, kv`deletedKeys, this`index
      ensures CellOf(kv.data, k) == Written(CellOf(old(kv.data), k), windows[k])
      ensures forall j :: j != k ==> CellOf(kv.data, j) == CellOf(old(kv.data), j)
      ensures index == if Changed(windows[k]) then old(index) + {k} else old(index)
      ensures added == (Changed(windows[k]) && k !in old(index))
      ensures Lookup(kv.data, IndexKey) == Lookup(old(kv.data), IndexKey)
      ensures Lookup(kv.data, VersionKey) == Lookup(old(kv.data), VersionKey)
      ensures Journal(kv.writtenKeys, kv.deletedKeys, pairs + {k})
    {
      hide CellOf, Written, Journal, Consistent, Changed;
      var changed := FlushWindow(k, pairs);
      added := changed && k !in index;
      if added {
        index := index + {k};
      } else if changed {
        assert old(index) + {k} == index;
      }
    }

    lemma AllConsistent()
      requires Valid()
      ensures forall k :: k in windows ==> Consistent(windows[k])
    {
    }

    /** Deletes the keys of every indexed pair that no longer has a depth. */
    method FlushOrphans() returns (shrank: bool)
      requires forall k :: k in windows ==> Consistent(windows[k])
      requires Journal(kv.writtenKeys, kv.deletedKeys, KeptPairs())
      modifies kv`data, kv`deletedKeys, this`index
      ensures forall k :: k in old(index) && !Kept(k) ==> CellOf(kv.data, k) == Removed(CellOf(old(kv.data), k), k)
      ensures forall k :: k !in old(index) || Kept(k) ==> CellOf(kv.data, k) == CellOf(old(kv.data), k)
      ensures index == old(index) * KeptPairs()
      ensures shrank == (index != old(index))
      ensures Lookup(kv.data, IndexKey) == Lookup(old(kv.data), IndexKey)
      ensures Lookup(kv.data, VersionKey) == Lookup(old(kv.data), VersionKey)
      ensures exists pairs :: Journal(kv.writtenKeys, kv.deletedKeys, pairs)
    {
      hide CellOf, Journal, Consistent, Removed, SortedBy, NoDuplicates, Lookup;
      var orphans := set k | k in index && !(k in windows && windows[k].header.requiredCount > 0);
      var keys := SortPairs(orphans);
      ghost var pairs := KeptPairs();
      for i := 0 to |keys|
        invariant pairs == KeptPairs() + set k | k in keys[..i]
        invariant forall k :: k in keys[..i] ==> CellOf(kv.data, k) == Removed(CellOf(old(kv.data), k), k)
        invariant forall k :: k !in keys[..i] ==> CellOf(kv.data, k) == CellOf(old(kv.data), k)
        invariant index == old(index) - set k | k in keys[..i]
        invariant Lookup(kv.data, IndexKey) == Lookup(old(kv.data), IndexKey)
        invariant Lookup(kv.data, VersionKey) == Lookup(old(kv.data), VersionKey)
        invariant Journal(kv.writtenKeys, kv.deletedKeys, pairs)
      {
        var k := keys[i];
        NextUnseen(keys, i);
        assert k in orphans;
        DeleteWindow(k, pairs);
        pairs := pairs + {k};
        index := index - {k};
      }
      assert keys[..|keys|] == keys;
      shrank := |keys| > 0;
      assert shrank ==> keys[0] in keys;
    }

    /** Writes the index and the layout version when the stored set changed. */
    method FlushIndex(changed: bool, ghost pairs: set<Pair>)
      requires Journal(kv.writtenKeys, kv.deletedKeys, pairs)
      modifies kv`data, kv`writtenKeys, this`layoutReset
      ensures forall k :: CellOf(kv.data, k) == CellOf(old(kv.data), k)
      ensures changed ==> SortedPairs(IndexOf(kv.data), index)
      ensures !changed ==> Lookup(kv.data, IndexKey) == Lookup(old(kv.data), IndexKey)
      ensures VersionOf(kv.data) == if changed && old(layoutReset) then LAYOUT_VERSION else VersionOf(old(kv.data))
      ensures layoutReset == (old(layoutReset) && !changed)
      ensures TouchedOnce(kv.writtenKeys, kv.deletedKeys)
    {
      hide CellOf, Journal, TouchedOnce, SortedPairs;
      ghost var written0 := kv.writtenKeys;
      JournalWithIndex(kv.writtenKeys, kv.deletedKeys, pairs, changed, changed && layoutReset);
      if changed {
        var keys := SortPairs(index);
        OtherKeyWritten(kv.data, IndexKey, IndexBytes(keys));
        kv.Write(IndexKey, IndexBytes(keys));
      }
      if layoutReset && changed {
        OtherKeyWritten(kv.data, VersionKey, VersionBytes(LAYOUT_VERSION));
        kv.Write(VersionKey, VersionBytes(LAYOUT_VERSION));
        layoutReset := false;
      }
      assert kv.writtenKeys == written0 + (if changed then [IndexKey] else [])
                             + (if changed && old(layoutReset) then [VersionKey] else []);
    }

    /** Persists modified windows, deletes pairs without a depth, and rewrites the
        index if the stored set changed. */
    method Flush()
      requires Valid() && Journal(kv.writtenKeys, kv.deletedKeys, {})
      modifies kv`data, kv`writtenKeys, kv`deletedKeys, this`index, this`layoutReset
      ensures forall k :: Kept(k) ==> CellOf(kv.data, k) == Written(CellOf(old(kv.data), k), windows[k])
      ensures forall k :: !Kept(k) && k in old(index) ==> CellOf(kv.data, k) == Removed(CellOf(old(kv.data), k), k)
      ensures forall k :: !Kept(k) && k !in old(index) ==> CellOf(kv.data, k) == CellOf(old(kv.data), k)
      ensures forall k :: k in index <==> Kept(k) && (k in old(index) || Changed(windows[k]))
      ensures abandoned > 0 || index != old(index) ==>
                && SortedPairs(IndexOf(kv.data), index)
                && VersionOf(kv.data) == if old(layoutReset) then LAYOUT_VERSION else VersionOf(old(kv.data))
      ensures abandoned == 0 && index == old(index) ==>
                && Lookup(kv.data, IndexKey) == Lookup(old(kv.data), IndexKey)
                && VersionOf(kv.data) == VersionOf(old(kv.data))
      ensures TouchedOnce(kv.writtenKeys, kv.deletedKeys)
    {
      hide CellOf, Written, Removed, Journal, Coherent, Consistent, Changed, TouchedOnce, SortedPairs;
      AllConsistent();
      var grew := FlushWindows();
      ghost var index1 := index;
      var shrank := FlushOrphans();
      ghost var pairs :| Journal(kv.writtenKeys, kv.deletedKeys, pairs);
      FlushIndex(abandoned > 0 || grew || shrank, pairs);
      assert grew || shrank <==> index != old(index) by {
        if grew {
          var k :| k in index1 && k !in old(index);
          assert k in index;
        } else if shrank {
          assert index1 == old(index);
        }
      }
    }
  }
}
