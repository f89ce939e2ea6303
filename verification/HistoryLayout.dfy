/** The chunked layout of a stream history window, as a function of what was appended.

    A window holds the records accepted since it was last empty. Chunk `s` of the
    window is always the slice of that log starting at `64 * s`, whatever was
    evicted, so one number (`first`, the oldest retained chunk) and the depth
    determine the header and every stored chunk.
 */
module HistoryLayout {
  import opened Collections

  const CHUNK_RECORDS: nat := 64
  const CHUNK_SLOTS: nat := MAX_DEPTH / CHUNK_RECORDS + 2
  const MAX_DEPTH: nat := 1024
  const MAX_RECORD_BYTES: nat := 128
  const MAX_UINT64: nat := 0xFFFF_FFFF_FFFF_FFFF

  /** A stream value, identified with its type tag and its serialised bytes. */
  datatype StoredValue = StoredValue(kind: nat, bytes: seq<byte>)

  datatype Record = Record(observedAt: nat, value: StoredValue)

  datatype Chunk = Chunk(sequence: nat, records: seq<Record>)

  datatype Header = Header(
    requiredCount: nat, firstSequence: nat, counts: seq<nat>, chunkFirst: seq<nat>, last: nat)

  datatype HistoryError =
    | CorruptHistory
    | InsufficientHistory
    | ChunkNotLoaded
    | AlreadyAppended
    | RecordTooLarge
    | NilStreamValue
    | DepthTooLarge

  // ----------------------------------------------------------- record sizes

  function VarintBytes(n: nat): nat { if n < 128 then 1 else 1 + VarintBytes(n / 128) }

  function ValueBytes(v: StoredValue): nat {
    (if v.kind == 0 then 0 else 1 + VarintBytes(v.kind)) +
    (if v.bytes == [] then 0 else 1 + VarintBytes(|v.bytes|) + |v.bytes|)
  }

  /** The protobuf size of one history record. */
  function RecordBytes(r: Record): nat {
    (if r.observedAt == 0 then 0 else 1 + VarintBytes(r.observedAt)) +
    1 + VarintBytes(ValueBytes(r.value)) + ValueBytes(r.value)
  }

  // ------------------------------------------------------- decoded validity

  ghost predicate Monotone(records: seq<Record>) {
    forall i, j :: 0 <= i < j < |records| ==> records[i].observedAt < records[j].observedAt
  }

  ghost predicate Storable(records: seq<Record>) {
    forall i :: 0 <= i < |records| ==> RecordBytes(records[i]) <= MAX_RECORD_BYTES
  }

  ghost predicate ChunkOk(c: Chunk) {
    1 <= |c.records| <= CHUNK_RECORDS && Monotone(c.records) && Storable(c.records)
  }

  function Total(counts: seq<nat>): nat {
    if counts == [] then 0 else Total(counts[..|counts| - 1]) + counts[|counts| - 1]
  }

  ghost predicate CountsOk(counts: seq<nat>) {
    forall i :: 0 <= i < |counts| ==>
      1 <= counts[i] <= CHUNK_RECORDS && (i < |counts| - 1 ==> counts[i] == CHUNK_RECORDS)
  }

  ghost predicate StartsOk(starts: seq<nat>) {
    forall i :: 0 < i < |starts| ==> starts[i - 1] < starts[i]
  }

  /** Everything a header promises except that no whole chunk is redundant. */
  ghost predicate HeaderShape(h: Header) {
    && h.requiredCount <= MAX_DEPTH
    && |h.counts| == |h.chunkFirst|
    && CountsOk(h.counts)
    && StartsOk(h.chunkFirst)
    && (h.counts == [] ==> h.firstSequence == 0 && h.last == 0)
    && (h.counts != [] ==>
          var i := |h.counts| - 1;
          h.chunkFirst[i] <= h.last && (h.counts[i] == 1 ==> h.chunkFirst[i] == h.last))
  }

  /** Retention keeps as few whole chunks as cover the required depth. */
  ghost predicate Retains(h: Header) {
    h.counts != [] ==>
      && Total(h.counts) - h.counts[0] < h.requiredCount
      && Total(h.counts) < h.requiredCount + CHUNK_RECORDS
  }

  /** The checks a stored header has to pass to decode. */
  ghost predicate HeaderOk(h: Header) {
    && HeaderShape(h) && Retains(h)
    && |h.counts| <= CHUNK_SLOTS
    && (h.counts != [] ==> h.firstSequence + |h.counts| <= MAX_UINT64)
  }

  lemma {:induction false} TotalClosed(counts: seq<nat>)
    requires CountsOk(counts)
    ensures counts != [] ==> Total(counts) == 64 * (|counts| - 1) + counts[|counts| - 1]
    ensures 64 * |counts| - 64 < Total(counts) + 1 && Total(counts) <= 64 * |counts|
  {
    if |counts| > 1 {
      var init := counts[..|counts| - 1];
      TotalClosed(init);
      assert init[|init| - 1] == counts[|counts| - 2];
    } else if |counts| == 1 {
      assert counts[..0] == [];
    }
  }

  /** Between rounds at least one ring slot is free. */
  lemma RetainedChunksBound(h: Header)
    requires HeaderShape(h) && Retains(h)
    ensures |h.counts| <= CHUNK_SLOTS - 1
  {
    TotalClosed(h.counts);
  }

  // --------------------------------------------------------- eviction, closed

  const EMPTY_HEADER: Header := Header(0, 0, [], [], 0)

  /** How many of the oldest chunks are redundant for the required depth. */
  function Surplus(h: Header): (k: nat)
    requires HeaderShape(h)
    ensures k <= |h.counts|
    ensures h.requiredCount > 0 && h.counts != [] ==> k < |h.counts|
  {
    TotalClosed(h.counts);
    if h.requiredCount == 0 then |h.counts|
    else if Total(h.counts) < h.requiredCount then 0
    else (Total(h.counts) - h.requiredCount) / 64
  }

  function Trim(h: Header): Header
    requires HeaderShape(h)
  {
    var k := Surplus(h);
    if h.requiredCount == 0 then EMPTY_HEADER
    else h.(firstSequence := h.firstSequence + k, counts := h.counts[k..], chunkFirst := h.chunkFirst[k..])
  }

  /** Evicting any decodable-looking header restores the retention bound. */
  lemma TrimRetains(h: Header)
    requires HeaderShape(h)
    ensures HeaderShape(Trim(h)) && Retains(Trim(h))
  {
    var t := Trim(h);
    TotalClosed(h.counts);
    assert CountsOk(t.counts);
    TotalClosed(t.counts);
  }

  // ------------------------------------------------------ the abstract window

  /** What a pair's stored keys mean: the log of records accepted since the window
      was last empty, its oldest retained chunk, and its required depth. */
  datatype Window = Window(log: seq<Record>, first: nat, depth: nat)

  const EMPTY_WINDOW: Window := Window([], 0, 0)

  function ChunksFor(n: nat): nat { (n + 63) / 64 }

  function Slot(sequence: nat): nat { sequence % 18 }

  predicate Retained(w: Window, s: nat) { w.first <= s < ChunksFor(|w.log|) }

  ghost predicate Placed(w: Window) {
    && w.depth <= MAX_DEPTH && Monotone(w.log) && Storable(w.log)
    && (if w.log == [] then w.first == 0 else 64 * w.first < |w.log|)
  }

  ghost predicate WindowOk(w: Window) {
    && Placed(w)
    && (w.log != [] ==> w.depth > 0 && |w.log| < 64 * (w.first + 1) + w.depth)
  }

  function RetainedCount(w: Window): int { |w.log| - 64 * w.first }

  function ChunkOf(log: seq<Record>, s: nat): Chunk
    requires 64 * s < |log|
  {
    Chunk(s, log[64 * s..Min(64 * s + 64, |log|)])
  }

  function CountAt(log: seq<Record>, s: nat): nat
    requires 64 * s < |log|
  {
    Min(64, |log| - 64 * s)
  }

  function StartAt(log: seq<Record>, s: nat): nat
    requires 64 * s < |log|
  {
    log[64 * s].observedAt
  }

  function Counts(log: seq<Record>, first: nat): (r: seq<nat>)
    requires first <= ChunksFor(|log|)
    ensures |r| == ChunksFor(|log|) - first
    ensures forall i :: 0 <= i < |r| ==> r[i] == CountAt(log, first + i)
  {
    seq<nat>(ChunksFor(|log|) - first, i requires 0 <= i < ChunksFor(|log|) - first => CountAt(log, first + i))
  }

  function Starts(log: seq<Record>, first: nat): (r: seq<nat>)
    requires first <= ChunksFor(|log|)
    ensures |r| == ChunksFor(|log|) - first
    ensures forall i :: 0 <= i < |r| ==> r[i] == StartAt(log, first + i)
  {
    seq<nat>(ChunksFor(|log|) - first, i requires 0 <= i < ChunksFor(|log|) - first => StartAt(log, first + i))
  }

  function HeaderOf(w: Window): Header
    requires w.first <= ChunksFor(|w.log|)
  {
    Header(w.depth, w.first, Counts(w.log, w.first), Starts(w.log, w.first),
           if w.log == [] then 0 else w.log[|w.log| - 1].observedAt)
  }

  function RetainedSlots(w: Window): set<nat> {
    set s | w.first <= s < ChunksFor(|w.log|) :: Slot(s)
  }

  /** Drops whole chunks until one fewer would not cover the depth. */
  function Retain(w: Window): Window {
    if w.depth == 0 then EMPTY_WINDOW
    else if |w.log| < w.depth then w
    else w.(first := Max(w.first, (|w.log| - w.depth) / 64))
  }

  function SetDepth(w: Window, depth: nat): Window {
    if depth == w.depth then w else Retain(w.(depth := depth))
  }

  predicate Accepts(w: Window, r: Record) {
    && w.depth > 0
    && (w.log != [] ==> r.observedAt > w.log[|w.log| - 1].observedAt)
    && RecordBytes(r) <= MAX_RECORD_BYTES
  }

  function AppendTo(w: Window, r: Record): Window {
    if Accepts(w, r) then Retain(w.(log := w.log + [r])) else w
  }

  // ---------------------------------------------------------- window lemmas

  lemma RetainKeepsOk(w: Window)
    requires Placed(w)
    ensures WindowOk(Retain(w))
  {
  }

  lemma AppendKeepsOk(w: Window, r: Record)
    requires WindowOk(w)
    ensures WindowOk(AppendTo(w, r))
  {
    if Accepts(w, r) {
      var v := w.(log := w.log + [r]);
      assert Monotone(v.log) by { AppendMonotone(w.log, r); }
      RetainKeepsOk(v);
    }
  }

  lemma AppendMonotone(log: seq<Record>, r: Record)
    requires Monotone(log)
    requires log != [] ==> r.observedAt > log[|log| - 1].observedAt
    ensures Monotone(log + [r])
  {
  }

  /** The total of the header's counts is the retained part of the log. */
  lemma HeaderTotal(w: Window)
    requires Placed(w)
    ensures CountsOk(HeaderOf(w).counts)
    ensures Total(HeaderOf(w).counts) == RetainedCount(w)
  {
    TotalClosed(HeaderOf(w).counts);
  }

  lemma HeaderOfShape(w: Window)
    requires Placed(w)
    ensures HeaderShape(HeaderOf(w))
  {
    var h := HeaderOf(w);
    forall i | 0 < i < |h.chunkFirst| ensures h.chunkFirst[i - 1] < h.chunkFirst[i] {
      assert 64 * (w.first + i - 1) < 64 * (w.first + i) < |w.log|;
    }
  }

  /** Every header a well-formed window is written with decodes again, and leaves
      one of the ring's slots free. */
  lemma HeaderOfDecodes(w: Window)
    requires WindowOk(w)
    requires |w.log| <= MAX_UINT64
    ensures HeaderOk(HeaderOf(w))
    ensures |HeaderOf(w).counts| <= CHUNK_SLOTS - 1
  {
    HeaderOfShape(w);
    HeaderTotal(w);
    HeaderOfRetains(w);
    RetainedChunksBound(HeaderOf(w));
  }

  lemma HeaderOfRetains(w: Window)
    requires WindowOk(w)
    ensures Retains(HeaderOf(w))
  {
    HeaderTotal(w);
  }

  /** Every chunk a well-formed window is written with decodes again. */
  lemma ChunkOfDecodes(w: Window, s: nat)
    requires WindowOk(w) && Retained(w, s)
    ensures 64 * s < |w.log| && ChunkOk(ChunkOf(w.log, s))
  {
  }

  /** The retained chunks and one fresh one occupy pairwise distinct ring slots. */
  lemma SlotsDistinct(w: Window, s: nat, t: nat)
    requires WindowOk(w)
    requires w.first <= s <= ChunksFor(|w.log|) && w.first <= t <= ChunksFor(|w.log|)
    requires Slot(s) == Slot(t)
    ensures s == t
  {
  }

  lemma SurplusIsRetain(w: Window)
    requires Placed(w) && w.depth > 0
    ensures HeaderShape(HeaderOf(w))
    ensures Retain(w) == w.(first := w.first + Surplus(HeaderOf(w)))
    ensures Retain(w).first <= ChunksFor(|w.log|)
  {
    HeaderOfShape(w);
    HeaderTotal(w);
  }

  lemma DropCounts(log: seq<Record>, first: nat, k: nat)
    requires first + k <= ChunksFor(|log|)
    ensures Counts(log, first)[k..] == Counts(log, first + k)
    ensures Starts(log, first)[k..] == Starts(log, first + k)
  {
  }

  lemma TrimDropsCounts(w: Window, k: nat)
    requires Placed(w) && w.depth > 0 && HeaderShape(HeaderOf(w))
    requires k == Surplus(HeaderOf(w)) && w.first + k <= ChunksFor(|w.log|)
    ensures Trim(HeaderOf(w)) == HeaderOf(w.(first := w.first + k))
  {
    DropCounts(w.log, w.first, k);
  }

  /** Evicting on the header alone agrees with dropping chunks of the log. */
  lemma TrimIsRetain(w: Window)
    requires Placed(w)
    ensures HeaderShape(HeaderOf(w))
    ensures Trim(HeaderOf(w)) == HeaderOf(Retain(w))
  {
    HeaderOfShape(w);
    if w.depth > 0 {
      hide Surplus, Trim, HeaderOf, HeaderShape, Retain, Placed;
      SurplusIsRetain(w);
      TrimDropsCounts(w, Surplus(HeaderOf(w)));
    }
  }
}
