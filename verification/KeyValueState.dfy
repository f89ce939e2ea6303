/** The replicated key-value state a round runs against, with a journal of the
    keys it touched (llo/dev/v31/kv.go). */
module KeyValueStates {
  import opened Collections
  import opened HistoryLayout
  import opened HistoryTracking
  import opened HistoryRing

  const LAYOUT_VERSION: nat := 1
  const MAX_PAIRS: nat := 128

  datatype Key = HeaderKey(pair: Pair) | ChunkKey(pair: Pair, slot: nat) | IndexKey | VersionKey

  type Data = map<Key, Bytes>

  function Lookup(data: Data, key: Key): Option<Bytes> { if key in data then Some(data[key]) else None }

  /** What is stored under one pair's header key and its ring of chunk keys. */
  function CellOf(data: Data, k: Pair): Cell {
    Cell(Lookup(data, HeaderKey(k)),
         map slot: nat | 0 <= slot < 18 && ChunkKey(k, slot) in data :: data[ChunkKey(k, slot)])
  }

  /** The pairs an index value names, or none when it does not hold an index. */
  function DecodeIndex(value: Option<Bytes>): seq<Pair> {
    match value
    case Some(IndexBytes(pairs)) => pairs
    case _ => []
  }

  function DecodeVersion(value: Option<Bytes>): nat {
    match value
    case Some(VersionBytes(version)) => version
    case _ => 0
  }

  function IndexOf(data: Data): seq<Pair> { DecodeIndex(Lookup(data, IndexKey)) }

  function VersionOf(data: Data): nat { DecodeVersion(Lookup(data, VersionKey)) }

  predicate PairLeq(a: Pair, b: Pair) {
    a.streamID < b.streamID || (a.streamID == b.streamID && a.aggregator <= b.aggregator)
  }

  /** By stream, then by aggregator, each pair once. */
  ghost predicate Ascending(keys: seq<Pair>) {
    forall i, j :: 0 <= i < j < |keys| ==>
      || keys[i].streamID < keys[j].streamID
      || (keys[i].streamID == keys[j].streamID && keys[i].aggregator < keys[j].aggregator)
  }

  lemma AscendingIff(keys: seq<Pair>)
    ensures Ascending(keys) <==> SortedBy(keys, PairLeq) && NoDuplicates(keys)
  {
  }

  /** A set of pairs in (stream, aggregator) order. */
  ghost predicate SortedPairs(keys: seq<Pair>, pairs: set<Pair>) {
    && SortedBy(keys, PairLeq) && NoDuplicates(keys)
    && forall k :: k in keys <==> k in pairs
  }

  /** Drains a map's keys in some order and sorts them; the order drained in is gone. */
  method SortPairs(pairs: set<Pair>) returns (keys: seq<Pair>)
    ensures SortedPairs(keys, pairs) && |keys| == |pairs|
  {
    var drained := Drain(pairs);
    keys := Sort(drained, PairLeq);
    SameElements(drained, keys);
    PermutationKeepsNoDuplicates(drained, keys);
  }

  lemma SortedPairsUnique(a: seq<Pair>, b: seq<Pair>, pairs: set<Pair>)
    requires SortedPairs(a, pairs) && SortedPairs(b, pairs)
    ensures a == b
  {
    SortedIsCanonical(a, b, PairLeq);
  }

  // ------------------------------------------------------ cells under updates

  /** A pair's cell depends on that pair's keys only. */
  lemma SameCell(d: Data, e: Data, k: Pair)
    requires Lookup(d, HeaderKey(k)) == Lookup(e, HeaderKey(k))
    requires forall slot: nat :: Lookup(d, ChunkKey(k, slot)) == Lookup(e, ChunkKey(k, slot))
    ensures CellOf(d, k) == CellOf(e, k)
  {
    SameSlots(d, e, k);
  }

  lemma SameSlots(d: Data, e: Data, k: Pair)
    requires forall slot: nat :: Lookup(d, ChunkKey(k, slot)) == Lookup(e, ChunkKey(k, slot))
    ensures CellOf(d, k).slots == CellOf(e, k).slots
  {
    var x, y := CellOf(d, k).slots, CellOf(e, k).slots;
    forall slot: nat ensures slot in x <==> slot in y {
      assert Lookup(d, ChunkKey(k, slot)) == Lookup(e, ChunkKey(k, slot));
    }
    forall slot: nat | slot in x ensures x[slot] == y[slot] {
      assert Lookup(d, ChunkKey(k, slot)) == Lookup(e, ChunkKey(k, slot));
    }
  }

  lemma HeaderWritten(data: Data, k: Pair, b: Bytes)
    ensures CellOf(data[HeaderKey(k) := b], k) == CellOf(data, k).(header := Some(b))
    ensures forall j :: j != k ==> CellOf(data[HeaderKey(k) := b], j) == CellOf(data, j)
  {
    SameSlots(data[HeaderKey(k) := b], data, k);
    forall j | j != k { SameCell(data[HeaderKey(k) := b], data, j); }
  }

  lemma ChunkWritten(data: Data, k: Pair, slot: nat, b: Bytes)
    requires slot < CHUNK_SLOTS
    ensures CellOf(data[ChunkKey(k, slot) := b], k) == CellOf(data, k).(slots := CellOf(data, k).slots[slot := b])
    ensures forall j :: j != k ==> CellOf(data[ChunkKey(k, slot) := b], j) == CellOf(data, j)
  {
    var d := data[ChunkKey(k, slot) := b];
    assert CellOf(d, k).slots == CellOf(data, k).slots[slot := b];
    forall j | j != k { SameCell(d, data, j); }
  }

  lemma HeaderDeleted(data: Data, k: Pair)
    ensures CellOf(data - {HeaderKey(k)}, k) == CellOf(data, k).(header := None)
    ensures forall j :: j != k ==> CellOf(data - {HeaderKey(k)}, j) == CellOf(data, j)
  {
    SameSlots(data - {HeaderKey(k)}, data, k);
    forall j | j != k { SameCell(data - {HeaderKey(k)}, data, j); }
  }

  lemma ChunkDeleted(data: Data, k: Pair, slot: nat)
    ensures CellOf(data - {ChunkKey(k, slot)}, k) == CellOf(data, k).(slots := CellOf(data, k).slots - {slot})
    ensures forall j :: j != k ==> CellOf(data - {ChunkKey(k, slot)}, j) == CellOf(data, j)
  {
    var d := data - {ChunkKey(k, slot)};
    assert CellOf(d, k).slots == CellOf(data, k).slots - {slot};
    forall j | j != k { SameCell(d, data, j); }
  }

  lemma OtherKeyWritten(data: Data, key: Key, b: Bytes)
    requires key.IndexKey? || key.VersionKey?
    ensures forall k :: CellOf(data[key := b], k) == CellOf(data, k)
  {
    forall k { SameCell(data[key := b], data, k); }
  }

  class KeyValueState {
    var data: Data
    var readKeys: seq<Key>
    var writtenKeys: seq<Key>
    var deletedKeys: seq<Key>

    constructor (d: Data)
      ensures data == d && readKeys == [] && writtenKeys == [] && deletedKeys == []
    {
      data, readKeys, writtenKeys, deletedKeys := d, [], [], [];
    }

    method Read(key: Key) returns (value: Option<Bytes>)
      modifies this`readKeys
      ensures value == Lookup(data, key) && readKeys == old(readKeys) + [key]
    {
      readKeys := readKeys + [key];
      value := if key in data then Some(data[key]) else None;
    }

    method Write(key: Key, value: Bytes)
      modifies this`data, this`writtenKeys
      ensures data == old(data)[key := value] && writtenKeys == old(writtenKeys) + [key]
    {
      writtenKeys := writtenKeys + [key];
      data := data[key := value];
    }

    method Delete(key: Key)
      modifies this`data, this`deletedKeys
      ensures data == old(data) - {key} && deletedKeys == old(deletedKeys) + [key]
    {
      deletedKeys := deletedKeys + [key];
      data := data - {key};
    }

    /** Corrupt bytes are told apart from an absent header, never adopted. */
    method ReadHeader(k: Pair) returns (r: Result<Option<Header>, HistoryError>)
      modifies this`readKeys
      ensures readKeys == old(readKeys) + [HeaderKey(k)]
      ensures r == HeaderReading(Lookup(data, HeaderKey(k)))
    {
      var value := Read(HeaderKey(k));
      match value {
        case None => r := Ok(None);
        case Some(HeaderBytes(h)) =>
          var decoded := DecodeHeader(h);
          r := if decoded.Ok? then Ok(Some(decoded.value)) else Err(CorruptHistory);
        case _ => r := Err(CorruptHistory);
      }
    }

    method ReadChunk(k: Pair, slot: nat) returns (r: Result<Option<Chunk>, HistoryError>)
      modifies this`readKeys
      ensures readKeys == old(readKeys) + [ChunkKey(k, slot)]
      ensures r == ChunkReading(Lookup(data, ChunkKey(k, slot)))
    {
      var value := Read(ChunkKey(k, slot));
      match value {
        case None => r := Ok(None);
        case Some(ChunkBytes(c)) =>
          var decoded := DecodeChunk(c);
          r := if decoded.Ok? then Ok(Some(decoded.value)) else Err(CorruptHistory);
        case _ => r := Err(CorruptHistory);
      }
    }
  }

  ghost function HeaderReading(value: Option<Bytes>): Result<Option<Header>, HistoryError> {
    match value
    case None => Ok(None)
    case Some(HeaderBytes(h)) => if HeaderOk(h) then Ok(Some(h)) else Err(CorruptHistory)
    case _ => Err(CorruptHistory)
  }

  ghost function ChunkReading(value: Option<Bytes>): Result<Option<Chunk>, HistoryError> {
    match value
    case None => Ok(None)
    case Some(ChunkBytes(c)) => if ChunkOk(c) then Ok(Some(c)) else Err(CorruptHistory)
    case _ => Err(CorruptHistory)
  }
}
