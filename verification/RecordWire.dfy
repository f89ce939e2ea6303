/** The wire form of a history record, which its size limit is about
    (llo/protocol/plugin_codecs.proto, llo/protocol/stream_history.go). */
module RecordWires {
  import opened Collections
  import opened HistoryLayout

  type Wire = seq<byte>

  /** Field 1 as a varint, and field 2 as a length-delimited value. */
  const VARINT_1: byte := 0x08
  const LENGTH_2: byte := 0x12

  /** Seven bits a byte, lowest first, the top bit set on all but the last. */
  function EncodeVarint(n: nat): Wire {
    if n < 128 then [n as byte] else [(128 + n % 128) as byte] + EncodeVarint(n / 128)
  }

  function DecodeVarint(w: Wire): Option<(nat, Wire)> {
    if w == [] then None
    else if (w[0] as nat) < 128 then Some((w[0] as nat, w[1..]))
    else
      match DecodeVarint(w[1..])
      case None => None
      case Some((high, rest)) => Some((w[0] as nat - 128 + 128 * high, rest))
  }

  lemma {:induction false} VarintRoundTrip(n: nat, rest: Wire)
    ensures DecodeVarint(EncodeVarint(n) + rest) == Some((n, rest))
    ensures |EncodeVarint(n)| == VarintBytes(n)
  {
    var w := EncodeVarint(n) + rest;
    if n < 128 {
      assert w[1..] == rest;
    } else {
      VarintRoundTrip(n / 128, rest);
      assert w[1..] == EncodeVarint(n / 128) + rest;
    }
  }

  /** Fields at their default are left out. */
  function EncodeValue(v: StoredValue): Wire {
    (if v.kind == 0 then [] else [VARINT_1] + EncodeVarint(v.kind)) +
    (if v.bytes == [] then [] else [LENGTH_2] + EncodeVarint(|v.bytes|) + v.bytes)
  }

  function EncodeRecord(r: Record): Wire {
    (if r.observedAt == 0 then [] else [VARINT_1] + EncodeVarint(r.observedAt)) +
    ([LENGTH_2] + EncodeVarint(|EncodeValue(r.value)|) + EncodeValue(r.value))
  }

  function DecodeNumber(w: Wire): Option<(nat, Wire)> {
    if w != [] && w[0] == VARINT_1 then DecodeVarint(w[1..]) else Some((0, w))
  }

  /** The content of a length-delimited field that ends the message. */
  function DecodeContent(w: Wire): Option<Wire> {
    if w == [] || w[0] != LENGTH_2 then None
    else
      match DecodeVarint(w[1..])
      case None => None
      case Some((n, content)) => if |content| == n then Some(content) else None
  }

  function DecodeValue(w: Wire): Option<StoredValue> {
    match DecodeNumber(w)
    case None => None
    case Some((kind, rest)) =>
      if rest == [] then Some(StoredValue(kind, []))
      else match DecodeContent(rest) case None => None case Some(bytes) => Some(StoredValue(kind, bytes))
  }

  function DecodeRecord(w: Wire): Option<Record> {
    match DecodeNumber(w)
    case None => None
    case Some((at, rest)) =>
      match DecodeContent(rest)
      case None => None
      case Some(content) =>
        match DecodeValue(content) case None => None case Some(value) => Some(Record(at, value))
  }

  lemma NumberRoundTrip(n: nat, rest: Wire)
    requires rest != [] ==> rest[0] == LENGTH_2
    ensures DecodeNumber((if n == 0 then [] else [VARINT_1] + EncodeVarint(n)) + rest) == Some((n, rest))
    ensures |if n == 0 then [] else [VARINT_1] + EncodeVarint(n)| == if n == 0 then 0 else 1 + VarintBytes(n)
  {
    hide EncodeVarint, DecodeVarint;
    VarintRoundTrip(n, rest);
    if n == 0 {
      assert [] + rest == rest;
    } else {
      var w := [VARINT_1] + EncodeVarint(n) + rest;
      assert w[1..] == EncodeVarint(n) + rest;
    }
  }

  lemma ContentRoundTrip(content: Wire)
    ensures DecodeContent([LENGTH_2] + EncodeVarint(|content|) + content) == Some(content)
    ensures |[LENGTH_2] + EncodeVarint(|content|) + content| == 1 + VarintBytes(|content|) + |content|
  {
    hide EncodeVarint, DecodeVarint;
    VarintRoundTrip(|content|, content);
    var w := [LENGTH_2] + EncodeVarint(|content|) + content;
    assert w[1..] == EncodeVarint(|content|) + content;
  }

  lemma ValueRoundTrip(v: StoredValue)
    ensures DecodeValue(EncodeValue(v)) == Some(v) && |EncodeValue(v)| == ValueBytes(v)
  {
    hide EncodeVarint, DecodeNumber, DecodeContent;
    ContentRoundTrip(v.bytes);
    NumberRoundTrip(v.kind, if v.bytes == [] then [] else [LENGTH_2] + EncodeVarint(|v.bytes|) + v.bytes);
  }

  /** Every record is recovered from its wire form, whose length is the size the limit of
      128 bytes is checked against. */
  lemma RecordRoundTrip(r: Record)
    ensures DecodeRecord(EncodeRecord(r)) == Some(r) && |EncodeRecord(r)| == RecordBytes(r)
  {
    hide EncodeVarint, EncodeValue, DecodeNumber, DecodeContent, DecodeValue;
    ValueRoundTrip(r.value);
    ContentRoundTrip(EncodeValue(r.value));
    NumberRoundTrip(r.observedAt, [LENGTH_2] + EncodeVarint(|EncodeValue(r.value)|) + EncodeValue(r.value));
  }
}
