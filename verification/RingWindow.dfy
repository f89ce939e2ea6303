/** The per-round working copy of one pair's chunked history
    (llo/protocol/stream_history_ring.go). */
module HistoryRing {
  import opened Collections
  import opened HistoryLayout
  import opened HistoryTracking

  // ----------------------------------------------------------------- decoding

  ghost predicate Climbs(records: seq<Record>) {
    forall i :: 0 < i < |records| ==> records[i - 1].observedAt < records[i].observedAt
  }

  lemma {:induction false} ClimbsTo(records: seq<Record>, i: nat, j: nat)
    requires Climbs(records) && i < j < |records|
    ensures records[i].observedAt < records[j].observedAt
    decreases j
  {
    if i < j - 1 { ClimbsTo(records, i, j - 1); }
  }

  lemma ClimbsIff(records: seq<Record>)
    ensures Monotone(records) <==> Climbs(records)
  {
    if Climbs(records) {
      forall i, j | 0 <= i < j < |records| ensures records[i].observedAt < records[j].observedAt {
        ClimbsTo(records, i, j);
      }
    }
  }

  lemma ChunkOkIff(c: Chunk)
    ensures ChunkOk(c) <==>
              && 1 <= |c.records| <= 64
              && (forall i :: 0 <= i < |c.records| ==> RecordBytes(c.records[i]) <= 128) && Climbs(c.records)
  {
    hide RecordBytes, Monotone, Climbs;
    ClimbsIff(c.records);
  }

  method DecodeChunk(pb: Chunk) returns (r: Result<Chunk, HistoryError>)
    ensures r == if ChunkOk(pb) then Ok(pb) else Err(CorruptHistory)
    ensures r.Ok? <==>
              && 1 <= |pb.records| <= 64
              && (forall i :: 0 <= i < |pb.records| ==> RecordBytes(pb.records[i]) <= 128) && Climbs(pb.records)
  {
    ChunkOkIff(pb);
    if |pb.records| == 0 || |pb.records| > CHUNK_RECORDS {
      return Err(CorruptHistory);
    }
    var prev := 0;
    for i := 0 to |pb.records|
      invariant Monotone(pb.records[..i]) && Storable(pb.records[..i])
      invariant i > 0 ==> prev == pb.records[i - 1].observedAt
    {
      var rec := pb.records[i];
      assert pb.records[..i + 1] == pb.records[..i] + [rec];
      if i > 0 && rec.observedAt <= prev {
        assert pb.records[i - 1].observedAt >= pb.records[i].observedAt;
        return Err(CorruptHistory);
      }
      if RecordBytes(rec) > MAX_RECORD_BYTES {
        return Err(CorruptHistory);
      }
      AppendMonotone(pb.records[..i], rec);
      prev := rec.observedAt;
    }
    assert pb.records[..|pb.records|] == pb.records;
    r := Ok(pb);
  }

  method SumCounts(counts: seq<nat>) returns (total: nat)
    ensures total == Total(counts)
  {
    total := 0;
    for i := 0 to |counts|
      invariant total == Total(counts[..i])
    {
      assert counts[..i + 1][..i] == counts[..i];
      total := total + counts[i];
    }
    assert counts[..|counts|] == counts;
  }

  /** A header in terms of its fields: all chunks but the newest are full, starts ascend, the
      newest starts at or before the last record, and at exactly it if it is the only one;
      without its oldest chunk it would hold less than the depth, with it less than 64 more. */
  ghost predicate HeaderFields(h: Header) {
    var n := |h.counts|;
    && h.requiredCount <= 1024 && n == |h.chunkFirst| && n <= 18
    && if n == 0 then h.firstSequence == 0 && h.last == 0
       else
         && h.firstSequence <= 0xFFFF_FFFF_FFFF_FFFF - n
         && (forall i :: 0 <= i < n - 1 ==> h.counts[i] == 64) && 1 <= h.counts[n - 1] <= 64
         && (forall i :: 0 < i < n ==> h.chunkFirst[i - 1] < h.chunkFirst[i])
         && h.chunkFirst[n - 1] <= h.last && (h.counts[n - 1] == 1 ==> h.chunkFirst[n - 1] == h.last)
         && 64 * (n - 1) + h.counts[n - 1] - h.counts[0] < h.requiredCount
         && 64 * (n - 1) + h.counts[n - 1] < h.requiredCount + 64
  }

  lemma HeaderOkIff(h: Header)
    ensures HeaderOk(h) <==> HeaderFields(h)
  {
    if CountsOk(h.counts) { TotalClosed(h.counts); }
    assert HeaderFields(h) ==> CountsOk(h.counts);
  }

  /** Accepts exactly the headers that pass every check. */
  method DecodeHeader(pb: Header) returns (r: Result<Header, HistoryError>)
    ensures r == if HeaderOk(pb) then Ok(pb) else Err(CorruptHistory)
    ensures r.Ok? <==> HeaderFields(pb)
  {
    HeaderOkIff(pb);
    var n := |pb.counts|;
    if pb.requiredCount > MAX_DEPTH || n != |pb.chunkFirst| || n > CHUNK_SLOTS {
      return Err(CorruptHistory);
    }
    if n == 0 {
      if pb.firstSequence != 0 || pb.last != 0 {
        return Err(CorruptHistory);
      }
      return Ok(pb);
    }
    if pb.firstSequence > MAX_UINT64 - n {
      return Err(CorruptHistory);
    }
    var total := 0;
    for i := 0 to n
      invariant forall k :: 0 <= k < i ==>
                  1 <= pb.counts[k] <= CHUNK_RECORDS && (k < n - 1 ==> pb.counts[k] == CHUNK_RECORDS)
      invariant forall k :: 0 < k < i ==> pb.chunkFirst[k - 1] < pb.chunkFirst[k]
      invariant total == Total(pb.counts[..i])
    {
      if pb.counts[i] == 0 || pb.counts[i] > CHUNK_RECORDS || (i != n - 1 && pb.counts[i] != CHUNK_RECORDS) {
        assert !CountsOk(pb.counts);
        return Err(CorruptHistory);
      }
      assert pb.counts[..i + 1][..i] == pb.counts[..i];
      total := total + pb.counts[i];
      if i > 0 && pb.chunkFirst[i] <= pb.chunkFirst[i - 1] {
        assert !StartsOk(pb.chunkFirst);
        return Err(CorruptHistory);
      }
    }
    assert pb.counts[..n] == pb.counts;
    var newestFirst, newestCount := pb.chunkFirst[n - 1], pb.counts[n - 1];
    if (newestCount == 1 && newestFirst != pb.last) || newestFirst > pb.last {
      return Err(CorruptHistory);
    }
    if total - pb.counts[0] >= pb.requiredCount {
      return Err(CorruptHistory);
    }
    if total >= pb.requiredCount + CHUNK_RECORDS {
      return Err(CorruptHistory);
    }
    r := Ok(pb);
  }

  // ------------------------------------------------------------- read planning

  function Span(lo: nat, hi: nat): seq<nat>
    requires lo <= hi
  {
    seq(hi - lo, i requires 0 <= i < hi - lo => lo + i)
  }

  /** The first chunk of the shortest suffix of chunks holding `n` records. */
  function PlanStart(h: Header, n: nat): int
    requires h.counts != []
  {
    var last := |h.counts| - 1;
    if n <= h.counts[last] then last else last - (n - h.counts[last] + 63) / 64
  }

  /** A plan covers the newest `n` records, and no shorter one does. */
  lemma PlanIsMinimal(h: Header, n: nat)
    requires HeaderShape(h) && 0 < n <= Total(h.counts)
    ensures h.counts != [] && 0 <= PlanStart(h, n) < |h.counts|
    ensures Total(h.counts[PlanStart(h, n)..]) >= n > Total(h.counts[PlanStart(h, n) + 1..])
  {
    TotalClosed(h.counts);
    var i := PlanStart(h, n);
    TotalClosed(h.counts[i..]);
    TotalClosed(h.counts[i + 1..]);
  }

  /** The chunks a read of the newest `n` records asks for. */
  function PlanOf(h: Header, n: nat): seq<nat>
    requires HeaderShape(h) && n <= Total(h.counts)
  {
    if n == 0 then []
    else
      PlanIsMinimal(h, n);
      Span(h.firstSequence + PlanStart(h, n), h.firstSequence + |h.counts|)
  }

  lemma PlanHoldsEnough(h: Header, n: nat)
    requires h.counts != []
    ensures n <= 64 * (|h.counts| - 1 - PlanStart(h, n)) + h.counts[|h.counts| - 1]
  {
  }

  ghost predicate Matches(h: Header, c: Chunk)
    requires HeaderShape(h)
  {
    && h.firstSequence <= c.sequence < h.firstSequence + |h.counts|
    && var i := c.sequence - h.firstSequence;
       && |c.records| == h.counts[i]
       && c.records[0].observedAt == h.chunkFirst[i]
       && (i == |h.counts| - 1 ==> c.records[|c.records| - 1].observedAt == h.last)
  }

  /** A chunk is accepted exactly when the header names its sequence, with as many records,
      the same first time and, for the newest chunk, the same last time. */
  lemma MatchesIff(h: Header, c: Chunk)
    requires HeaderShape(h) && c.records != []
    ensures Matches(h, c) <==>
            exists i :: 0 <= i < |h.counts| && c.sequence == h.firstSequence + i && |c.records| == h.counts[i]
              && c.records[0].observedAt == h.chunkFirst[i]
              && (i == |h.counts| - 1 ==> c.records[|c.records| - 1].observedAt == h.last)
  {
    if Matches(h, c) {
      var i := c.sequence - h.firstSequence;
      assert h.counts[i] == |c.records|;
    }
  }

  function LastOf(c: Chunk): Record
    requires c.records != []
  {
    c.records[|c.records| - 1]
  }

  ghost predicate AllLoaded(chunks: map<nat, Chunk>, lo: nat, hi: nat) {
    forall q :: lo <= q < hi ==> q in chunks
  }

  /** The records of the loaded chunks `lo` up to `hi`, oldest first. */
  function Joined(chunks: map<nat, Chunk>, lo: nat, hi: nat): seq<Record>
    decreases hi - lo
  {
    if hi <= lo then []
    else Joined(chunks, lo, hi - 1) + (if hi - 1 in chunks then chunks[hi - 1].records else [])
  }

  /** Chunk `q` starts after its predecessor ends. */
  predicate SeamOk(chunks: map<nat, Chunk>, q: nat) {
    q > 0 && q - 1 in chunks && q in chunks && chunks[q - 1].records != [] && chunks[q].records != [] ==>
      LastOf(chunks[q - 1]).observedAt < chunks[q].records[0].observedAt
  }

  /** Two loaded chunks fit exactly when the last record of one is before the first of the
      other. */
  lemma SeamOkIff(chunks: map<nat, Chunk>, q: nat)
    requires q > 0 && q - 1 in chunks && q in chunks && chunks[q - 1].records != [] && chunks[q].records != []
    ensures SeamOk(chunks, q) <==>
            chunks[q - 1].records[|chunks[q - 1].records| - 1].observedAt < chunks[q].records[0].observedAt
  {
  }

  ghost predicate SeamsOk(chunks: map<nat, Chunk>, lo: nat, hi: nat) {
    forall q :: lo < q < hi ==> SeamOk(chunks, q)
  }

  lemma {:induction false} JoinedSealed(chunks: map<nat, Chunk>, lo: nat, hi: nat)
    requires lo <= hi
    requires forall q :: lo <= q < hi ==> q in chunks && |chunks[q].records| == 64
    ensures |Joined(chunks, lo, hi)| == 64 * (hi - lo)
    decreases hi - lo
  {
    if lo < hi { JoinedSealed(chunks, lo, hi - 1); }
  }

  /** The planned chunks together hold the records asked for. */
  lemma JoinedNext(chunks: map<nat, Chunk>, lo: nat, hi: nat)
    requires lo < hi && hi - 1 in chunks
    ensures Joined(chunks, lo, hi) == Joined(chunks, lo, hi - 1) + chunks[hi - 1].records
  {
  }

  lemma JoinedCovers(h: Header, chunks: map<nat, Chunk>, n: nat)
    requires CountsOk(h.counts) && ChunksMatch(h, chunks)
    requires h.counts != [] && 0 <= PlanStart(h, n) < |h.counts|
    requires AllLoaded(chunks, h.firstSequence + PlanStart(h, n), h.firstSequence + |h.counts|)
    ensures |Joined(chunks, h.firstSequence + PlanStart(h, n), h.firstSequence + |h.counts|)| >= n
  {
    hide PlanStart, Joined;
    var lo, last := h.firstSequence + PlanStart(h, n), h.firstSequence + |h.counts| - 1;
    PlanHoldsEnough(h, n);
    forall q | lo <= q < last ensures q in chunks && |chunks[q].records| == 64 {
      assert h.counts[q - h.firstSequence] == 64;
    }
    JoinedSealed(chunks, lo, last);
    JoinedNext(chunks, lo, last + 1);
  }

  /** Chunk `m` is the first one missing, and everything before it fits together. */
  ghost predicate FirstGap(chunks: map<nat, Chunk>, lo: nat, m: nat) {
    m !in chunks && AllLoaded(chunks, lo, m) && SeamsOk(chunks, lo, m)
  }

  /** A planned chunk is missing although everything asked for was found and accepted. */
  ghost predicate ReadGap(s: Working, n: nat) {
    && s.header.counts != [] && 0 <= PlanStart(s.header, n)
    && var lo := s.header.firstSequence + PlanStart(s.header, n);
       exists m: nat :: lo <= m < s.header.firstSequence + |s.header.counts| && FirstGap(s.chunks, lo, m)
  }

  lemma GapBetween(s: Working, n: nat, lo: nat, hi: nat)
    requires s.header.counts != [] && 0 <= PlanStart(s.header, n)
    requires lo == s.header.firstSequence + PlanStart(s.header, n) && hi == s.header.firstSequence + |s.header.counts|
    ensures ReadGap(s, n) <==> exists m: nat :: lo <= m < hi && FirstGap(s.chunks, lo, m)
  {
  }

  /** Concatenates chunks `lo` up to `hi`, checking the seam between each two. */
  method Gather(chunks: map<nat, Chunk>, lo: nat, hi: nat) returns (r: Result<seq<Record>, HistoryError>)
    requires lo <= hi && forall q :: q in chunks ==> chunks[q].records != []
    ensures !AllLoaded(chunks, lo, hi) ==> r.Err?
    ensures r == Err(ChunkNotLoaded) <==> exists m: nat :: lo <= m < hi && FirstGap(chunks, lo, m)
    ensures r.Err? ==> r.error in {ChunkNotLoaded, CorruptHistory}
    ensures AllLoaded(chunks, lo, hi) ==>
              r == if SeamsOk(chunks, lo, hi) then Ok(Joined(chunks, lo, hi)) else Err(CorruptHistory)
  {
    var records := [];
    for q := lo to hi
      invariant AllLoaded(chunks, lo, q)
      invariant records == Joined(chunks, lo, q)
      invariant SeamsOk(chunks, lo, q)
      invariant records == [] <==> q == lo
      invariant q > lo ==> records[|records| - 1] == LastOf(chunks[q - 1])
    {
      if q !in chunks {
        assert FirstGap(chunks, lo, q);
        return Err(ChunkNotLoaded);
      }
      if |records| > 0 && chunks[q].records[0].observedAt <= records[|records| - 1].observedAt {
        assert !SeamOk(chunks, q);
        return Err(CorruptHistory);
      }
      records := records + chunks[q].records;
    }
    r := Ok(records);
  }

  /** What Append answers, decided from the header and the loaded chunks. */
  function AppendAnswer(s: Working, at: nat, value: Option<StoredValue>): Result<bool, HistoryError> {
    if value.None? then Err(NilStreamValue)
    else if s.stored then Err(AlreadyAppended)
    else if !MayStore(s.header, Record(at, value.value)) then Ok(false)
    else if RecordBytes(Record(at, value.value)) > MAX_RECORD_BYTES then Err(RecordTooLarge)
    else if TailHasRoom(s.header) && TailSequence(s.header) !in s.chunks then Err(ChunkNotLoaded)
    else Ok(true)
  }

  /** Every answer in terms of the fields: no value, a second append of the round, nothing
      to store, too large, the newest chunk needed but not loaded, stored. */
  lemma AppendAnswerIff(s: Working, at: nat, value: Option<StoredValue>)
    ensures var r, h := AppendAnswer(s, at, value), s.header;
            && (r == Err(NilStreamValue) <==> value == None)
            && (r == Err(AlreadyAppended) <==> value != None && s.stored)
            && (r == Ok(false) <==>
                  value != None && !s.stored && (h.requiredCount == 0 || (h.counts != [] && at <= h.last)))
            && (value.Some? && !s.stored && h.requiredCount > 0 && (h.counts != [] ==> at > h.last) ==>
                  && (r == Err(RecordTooLarge) <==> RecordBytes(Record(at, value.value)) > 128)
                  && (r == Err(ChunkNotLoaded) <==>
                        && RecordBytes(Record(at, value.value)) <= 128
                        && h.counts != [] && h.counts[|h.counts| - 1] < 64
                        && h.firstSequence + |h.counts| - 1 !in s.chunks)
                  && (r.Ok? ==> r == Ok(true)))
  {
    hide RecordBytes;
  }

  class RingWindow {
    var header: Header
    var chunks: map<nat, Chunk>
    var deleted: seq<nat>
    var headerDirty: bool
    var dirtyChunk: Option<Chunk>
    var stored: bool

    function State(): Working
      reads this
    {
      Working(header, chunks, deleted, headerDirty, dirtyChunk, stored)
    }

    ghost predicate Valid()
      reads this
    {
      Consistent(State())
    }

    constructor (h: Option<Header>)
      requires h.Some? ==> HeaderOk(h.value)
      ensures Valid() && State() == Opened(if h.Some? then h.value else EMPTY_HEADER)
    {
      header := if h.Some? then h.value else EMPTY_HEADER;
      chunks, deleted, headerDirty, dirtyChunk, stored := map[], [], false, None, false;
    }

    /** Takes up a working copy where an earlier operation of the round left it. */
    constructor Resume(s: Working)
      requires Consistent(s)
      ensures Valid() && State() == s
    {
      header, chunks, deleted := s.header, s.chunks, s.deleted;
      headerDirty, dirtyChunk, stored := s.headerDirty, s.dirtyChunk, s.stored;
    }

    constructor Reset()
      ensures Valid() && State() == ResetCopy()
    {
      header, chunks, headerDirty, dirtyChunk, stored := EMPTY_HEADER, map[], true, None, false;
      deleted := [];
      new;
      for slot := 0 to CHUNK_SLOTS
        invariant deleted == AllSlots()[..slot]
        invariant header == EMPTY_HEADER && chunks == map[] && headerDirty && dirtyChunk == None && !stored
      {
        deleted := deleted + [slot];
      }
    }

    /** Names the newest chunk when it has room, and nothing otherwise. */
    method AppendPlan() returns (sequences: seq<nat>)
      requires Valid()
      ensures sequences == if header.requiredCount > 0 && TailHasRoom(header) then [TailSequence(header)] else []
    {
      if header.requiredCount == 0 {
        return [];
      }
      var last := |header.counts| - 1;
      if last < 0 || header.counts[last] >= CHUNK_RECORDS {
        return [];
      }
      return [header.firstSequence + last];
    }

    method ReadPlan(n: nat) returns (r: Result<seq<nat>, HistoryError>)
      requires Valid()
      ensures n > Total(header.counts) ==> r == Err(InsufficientHistory)
      ensures n <= Total(header.counts) ==> r == Ok(PlanOf(header, n))
      ensures 0 < n <= Total(header.counts) ==> header.counts != [] && 0 <= PlanStart(header, n) < |header.counts|
    {
      if n == 0 {
        return Ok([]);
      }
      var total := SumCounts(header.counts);
      if total < n {
        return Err(InsufficientHistory);
      }
      TotalClosed(header.counts);
      PlanIsMinimal(header, n);
      var acc, first := 0, |header.counts| - 1;
      while first >= 0
        invariant PlanStart(header, n) <= first < |header.counts|
        invariant acc == if first == |header.counts| - 1 then 0
                         else 64 * (|header.counts| - 2 - first) + header.counts[|header.counts| - 1]
        invariant acc < n
      {
        acc := acc + header.counts[first];
        if acc >= n {
          break;
        }
        first := first - 1;
      }
      assert first == PlanStart(header, n);
      var sequences := [];
      for i := first to |header.counts|
        invariant sequences == Span(header.firstSequence + first, header.firstSequence + i)
      {
        sequences := sequences + [header.firstSequence + i];
      }
      r := Ok(sequences);
    }

    /** Accepts a chunk exactly when it matches the header. */
    method Provide(chunk: Chunk) returns (ok: bool)
      requires Valid()
      modifies this
      ensures Valid()
      ensures ok == Matches(old(header), chunk)
      ensures State() == if ok then old(State()).(chunks := old(chunks)[chunk.sequence := chunk]) else old(State())
    {
      if chunk.sequence < header.firstSequence || chunk.sequence - header.firstSequence >= |header.counts| {
        return false;
      }
      var i := chunk.sequence - header.firstSequence;
      if |chunk.records| != header.counts[i] {
        return false;
      }
      if chunk.records[0].observedAt != header.chunkFirst[i] {
        return false;
      }
      if i == |header.counts| - 1 && chunk.records[|chunk.records| - 1].observedAt != header.last {
        return false;
      }
      chunks := chunks[chunk.sequence := chunk];
      return true;
    }

    /** The newest `n` records of the planned chunks, once they are all loaded and
        each starts after its predecessor ends. */
    method Newest(n: nat) returns (r: Result<seq<Record>, HistoryError>)
      requires Valid()
      ensures n == 0 ==> r == Ok([])
      ensures n > Total(header.counts) ==> r == Err(InsufficientHistory)
      ensures 0 < n <= Total(header.counts) ==> header.counts != [] && 0 <= PlanStart(header, n) < |header.counts|
      ensures 0 < n <= Total(header.counts) && !AllLoaded(chunks, PlanFirst(n), End()) ==> r.Err?
      ensures r == Err(ChunkNotLoaded) <==> 0 < n <= Total(header.counts) && ReadGap(State(), n)
      ensures 0 < n <= Total(header.counts) && AllLoaded(chunks, PlanFirst(n), End()) ==>
                && n <= |Joined(chunks, PlanFirst(n), End())|
                && r == if SeamsOk(chunks, PlanFirst(n), End()) then Ok(LastN(Joined(chunks, PlanFirst(n), End()), n))
                        else Err(CorruptHistory)
    {
      hide FirstGap, SeamsOk, Joined, PlanStart;
      var plan := ReadPlan(n);
      if plan.Err? {
        return Err(plan.error);
      }
      if n == 0 {
        return Ok([]);
      }
      var lo, hi := plan.value[0], header.firstSequence + |header.counts|;
      assert lo == PlanFirst(n) && hi == End();
      GapBetween(State(), n, lo, hi);
      if AllLoaded(chunks, lo, hi) {
        JoinedCovers(header, chunks, n);
      }
      var records := Gather(chunks, lo, hi);
      if records.Err? {
        return Err(records.error);
      }
      r := Ok(LastN(records.value, n));
    }

    ghost function PlanFirst(n: nat): nat
      reads this
      requires header.counts != [] && 0 <= PlanStart(header, n)
    {
      header.firstSequence + PlanStart(header, n)
    }

    ghost function End(): nat
      reads this
    {
      header.firstSequence + |header.counts|
    }

    method SetRequiredCount(requiredCount: nat) returns (r: Result<bool, HistoryError>)
      requires Valid()
      modifies this
      ensures Valid()
      ensures requiredCount > MAX_DEPTH ==> r == Err(DepthTooLarge) && State() == old(State())
      ensures requiredCount <= MAX_DEPTH ==>
                && r == Ok(requiredCount != old(header).requiredCount)
                && State() == WithDepth(old(State()), requiredCount)
    {
      if requiredCount > MAX_DEPTH {
        return Err(DepthTooLarge);
      }
      WithDepthConsistent(State(), requiredCount);
      if header.requiredCount == requiredCount {
        return Ok(false);
      }
      header := header.(requiredCount := requiredCount);
      headerDirty := true;
      Evict();
      return Ok(true);
    }

    /** Stores at most one record a round, and only one strictly newer than the newest. */
    method Append(observedAt: nat, value: Option<StoredValue>) returns (r: Result<bool, HistoryError>)
      requires Valid()
      modifies this
      ensures Valid()
      ensures r == AppendAnswer(old(State()), observedAt, value)
      ensures r != Ok(true) ==> State() == old(State())
      ensures r == Ok(true) ==>
                && HeaderShape(Stored(old(State()), Record(observedAt, value.value)).header)
                && State() == Evicted(Stored(old(State()), Record(observedAt, value.value)))
    {
      if value.None? {
        return Err(NilStreamValue);
      }
      if stored {
        return Err(AlreadyAppended);
      }
      if header.requiredCount == 0 {
        return Ok(false);
      }
      if |header.counts| > 0 && observedAt <= header.last {
        return Ok(false);
      }
      var record := Record(observedAt, value.value);
      if RecordBytes(record) > MAX_RECORD_BYTES {
        return Err(RecordTooLarge);
      }
      if TailHasRoom(header) && TailSequence(header) !in chunks {
        return Err(ChunkNotLoaded);
      }
      StoredConsistent(State(), record);
      StoreTail(record);
      Evict();
      return Ok(true);
    }

    /** Extends the newest chunk, or starts one in the slot the ring keeps free. */
    method StoreTail(record: Record)
      requires Valid()
      requires TailHasRoom(header) ==> TailSequence(header) in chunks
      modifies this
      ensures State() == Stored(old(State()), record)
    {
      var last := |header.counts| - 1;
      var tail: Chunk;
      if last >= 0 && header.counts[last] < CHUNK_RECORDS {
        tail := chunks[header.firstSequence + last];
        header := header.(counts := header.counts[last := header.counts[last] + 1]);
      } else {
        RetainedChunksBound(header);
        if |header.counts| >= CHUNK_SLOTS {
          assert false; // no free ring slot
        }
        tail := Chunk(header.firstSequence + |header.counts|, []);
        header := header.(counts := header.counts + [1], chunkFirst := header.chunkFirst + [record.observedAt]);
      }
      tail := tail.(records := tail.records + [record]);
      chunks := chunks[tail.sequence := tail];
      header := header.(last := record.observedAt);
      headerDirty, dirtyChunk, stored := true, Some(tail), true;
      assert tail == NewTail(old(State()), record);
      assert header == Extended(old(header), record.observedAt);
    }

    /** Drops whole chunks from the oldest end while the rest covers the depth. */
    method Evict()
      requires HeaderShape(header)
      modifies this
      ensures State() == Evicted(old(State()))
    {
      ghost var s0, k, j := State(), Surplus(header), 0;
      DroppingNone(s0);
      while |header.counts| > 0
        invariant j <= k && State() == Dropping(s0, j)
        decreases |header.counts|
      {
        var total := SumCounts(header.counts);
        RedundantIffSurplus(s0.header, j);
        if total - header.counts[0] < header.requiredCount {
          DroppingSurplus(s0);
          return;
        }
        DroppingOneMore(s0, j);
        var sequence := header.firstSequence;
        chunks := chunks - {sequence};
        deleted := deleted + [Slot(sequence)];
        header := header.(counts := header.counts[1..], chunkFirst := header.chunkFirst[1..],
                          firstSequence := header.firstSequence + 1);
        headerDirty := true;
        j := j + 1;
      }
      DroppingAll(s0, j);
      header := header.(firstSequence := 0, last := 0, counts := [], chunkFirst := []);
    }

    /** At most one header, one chunk, and the slots to delete, ascending. */
    method WriteSet() returns (ws: RingWriteSet)
      ensures ws.header == if headerDirty then Some(header) else None
      ensures ws.chunk == dirtyChunk
      ensures (set d | d in ws.deletedSlots) == DeletedSlots(State())
      ensures forall i, j :: 0 <= i < j < |ws.deletedSlots| ==> ws.deletedSlots[i] < ws.deletedSlots[j]
    {
      var head := if headerDirty then Some(header) else None;
      if |deleted| == 0 {
        return RingWriteSet(head, dirtyChunk, []);
      }
      var slots, seen := [], {};
      for i := 0 to |deleted|
        invariant seen == set d | d in slots
        invariant seen == (set d | d in deleted[..i]) - WrittenSlots(State())
        invariant NoDuplicates(slots)
      {
        var slot := deleted[i];
        assert deleted[..i + 1] == deleted[..i] + [slot];
        if slot !in seen && !(dirtyChunk.Some? && slot == Slot(dirtyChunk.value.sequence)) {
          seen := seen + {slot};
          slots := slots + [slot];
        }
      }
      assert deleted[..|deleted|] == deleted;
      var sorted := Sort(slots, NatLeq);
      SameElements(sorted, slots);
      PermutationKeepsNoDuplicates(slots, sorted);
      ws := RingWriteSet(head, dirtyChunk, sorted);
    }
  }

  lemma RedundantIffSurplus(h: Header, j: nat)
    requires HeaderShape(h) && j < |h.counts| && j <= Surplus(h)
    ensures Total(h.counts[j..]) - h.counts[j] >= h.requiredCount <==> j < Surplus(h)
  {
    TotalClosed(h.counts);
    assert CountsOk(h.counts[j..]);
    TotalClosed(h.counts[j..]);
  }

  // ------------------------------------------------- reading a tracked window

  lemma ChunkMatchesHeader(w: Window, q: nat)
    requires WindowOk(w) && Retained(w, q)
    ensures HeaderShape(HeaderOf(w)) && Matches(HeaderOf(w), ChunkOf(w.log, q))
  {
    hide HeaderShape, ChunkOf, CountAt, StartAt, Monotone, Storable;
    HeaderOfShape(w);
    ChunkEnds(w.log, q);
    var h, i := HeaderOf(w), q - w.first;
    assert h.counts[i] == CountAt(w.log, q) && h.chunkFirst[i] == StartAt(w.log, q);
  }

  lemma ChunkEnds(log: seq<Record>, q: nat)
    requires 64 * q < |log|
    ensures var c := ChunkOf(log, q);
            && c.sequence == q && |c.records| == CountAt(log, q) > 0 && c.records[0].observedAt == StartAt(log, q)
            && (q == ChunksFor(|log|) - 1 ==> c.records[|c.records| - 1] == log[|log| - 1])
  {
  }

  /** A retained chunk that is not loaded yet is stored, and Provide accepts it,
      whatever was appended or evicted earlier in the round. */
  lemma StoredChunkIsAccepted(c: Cell, s: Working, log: seq<Record>, q: nat)
    requires Tracks(c, s, log) && Retained(View(s, log), q) && q !in s.chunks
    ensures Clean(s, log, q)
    ensures Slot(q) in c.slots && c.slots[Slot(q)] == ChunkBytes(ChunkOf(log, q)) && ChunkOk(ChunkOf(log, q))
    ensures HeaderShape(s.header) && Matches(s.header, ChunkOf(log, q))
  {
    ChunkMatchesHeader(View(s, log), q);
    ChunkOfDecodes(View(s, log), q);
    assert Clean(s, log, q);
  }

  lemma {:induction false} JoinedIsLog(chunks: map<nat, Chunk>, log: seq<Record>, lo: nat, hi: nat)
    requires lo <= hi <= ChunksFor(|log|) && 64 * lo <= |log|
    requires forall q :: lo <= q < hi ==> q in chunks && chunks[q] == ChunkOf(log, q)
    ensures Joined(chunks, lo, hi) == log[64 * lo..Min(64 * hi, |log|)]
    decreases hi - lo
  {
    hide Joined, ChunkOf, ChunksFor;
    if lo == hi {
      JoinedNone(chunks, lo);
    } else {
      JoinedIsLog(chunks, log, lo, hi - 1);
      JoinedNext(chunks, lo, hi);
      ChunkSlice(log, hi - 1);
      JoinSlices(log, 64 * lo, 64 * (hi - 1), Min(64 * hi, |log|));
    }
  }

  lemma JoinedNone(chunks: map<nat, Chunk>, lo: nat)
    ensures Joined(chunks, lo, lo) == []
  {
  }

  lemma ChunkSlice(log: seq<Record>, q: nat)
    requires q < ChunksFor(|log|)
    ensures 64 * q < |log| && ChunkOf(log, q).records == log[64 * q..Min(64 * (q + 1), |log|)]
  {
  }

  lemma JoinSlices<T>(s: seq<T>, a: nat, b: nat, c: nat)
    requires a <= b <= c <= |s|
    ensures s[a..b] + s[b..c] == s[a..c]
  {
  }

  lemma SeamsFollowLog(chunks: map<nat, Chunk>, log: seq<Record>, lo: nat, hi: nat)
    requires Monotone(log) && hi <= ChunksFor(|log|)
    requires forall q :: lo <= q < hi ==> q in chunks && chunks[q] == ChunkOf(log, q)
    ensures SeamsOk(chunks, lo, hi)
  {
    forall q | lo < q < hi ensures SeamOk(chunks, q) {
      assert LastOf(chunks[q - 1]) == log[64 * q - 1];
    }
  }

  lemma PlanReaches(w: Window, n: nat)
    requires WindowOk(w) && 0 < n <= RetainedCount(w)
    ensures HeaderOf(w).counts != []
    ensures 0 <= PlanStart(HeaderOf(w), n) && 64 * (w.first + PlanStart(HeaderOf(w), n)) + n <= |w.log|
  {
    var h := HeaderOf(w);
    assert h.counts[|h.counts| - 1] == CountAt(w.log, NewestChunk(w.log));
  }

  lemma JoinedTail(chunks: map<nat, Chunk>, log: seq<Record>, lo: nat, n: nat)
    requires 64 * lo + n <= |log| && lo <= ChunksFor(|log|)
    requires forall q :: lo <= q < ChunksFor(|log|) ==> q in chunks && chunks[q] == ChunkOf(log, q)
    ensures n <= |Joined(chunks, lo, ChunksFor(|log|))|
    ensures LastN(Joined(chunks, lo, ChunksFor(|log|)), n) == LastN(log, n)
  {
    JoinedIsLog(chunks, log, lo, ChunksFor(|log|));
    assert Joined(chunks, lo, ChunksFor(|log|)) == log[64 * lo..];
  }

  /** Once the planned chunks are loaded, Newest returns the end of the log. */
  lemma NewestIsLogTail(s: Working, log: seq<Record>, n: nat, lo: nat)
    requires WindowOk(View(s, log)) && s.header == HeaderOf(View(s, log)) && LoadedFromLog(s, log)
    requires 0 < n <= RetainedCount(View(s, log))
    requires s.header.counts != [] && lo == s.header.firstSequence + PlanStart(s.header, n)
    requires AllLoaded(s.chunks, lo, ChunksFor(|log|))
    ensures SeamsOk(s.chunks, lo, ChunksFor(|log|))
    ensures n <= |Joined(s.chunks, lo, ChunksFor(|log|))|
    ensures LastN(Joined(s.chunks, lo, ChunksFor(|log|)), n) == LastN(log, n)
  {
    PlanReaches(View(s, log), n);
    SeamsFollowLog(s.chunks, log, lo, ChunksFor(|log|));
    JoinedTail(s.chunks, log, lo, n);
  }

  /** Provide checks a chunk against the header but not against the slot it was
      read from. Whatever matching chunk the newest chunk's slot holds, an append of a
      record that is newer and fits fails exactly when that chunk is another one. */
  lemma MisplacedTailFailsAppend(h: Header, c: Chunk, r: Record)
    requires HeaderOk(h) && ChunkOk(c) && Matches(h, c)
    requires TailHasRoom(h) && MayStore(h, r) && RecordBytes(r) <= MAX_RECORD_BYTES
    ensures AppendAnswer(Opened(h).(chunks := map[c.sequence := c]), r.observedAt, Some(r.value))
         == if c.sequence == TailSequence(h) then Ok(true) else Err(ChunkNotLoaded)
  {
    hide RecordBytes;
  }
}
