/** What the outcome codecs keep of an outcome (llo/v30/outcome_codec_v0.go). */
module OutcomeCodecs {
  import opened Collections
  import opened Tallies
  import opened Outcomes

  const MAX_INT64: nat := 0x7FFF_FFFF_FFFF_FFFF
  const MAX_UINT32: nat := 0xFFFF_FFFF

  /** Version 0 writes watermarks as 32-bit seconds, visiting them in any order, and fails
      on the first that does not fit. */
  method EncodeSeconds(validAfter: map<ChannelID, nat>) returns (r: Option<map<ChannelID, nat>>)
    ensures r.None? <==> exists c :: c in validAfter && validAfter[c] / SECOND > MAX_UINT32
    ensures r.Some? ==>
              r.value.Keys == validAfter.Keys && forall c :: c in validAfter ==> r.value[c] == validAfter[c] / SECOND
  {
    var seconds: map<ChannelID, nat> := map[];
    var todo := validAfter.Keys;
    while todo != {}
      invariant todo <= validAfter.Keys && seconds.Keys == validAfter.Keys - todo
      invariant forall c :: c in seconds ==> seconds[c] == validAfter[c] / SECOND <= MAX_UINT32
      decreases |todo|
    {
      var c :| c in todo;
      if validAfter[c] / SECOND > MAX_UINT32 {
        return None;
      }
      seconds, todo := seconds[c := validAfter[c] / SECOND], todo - {c};
    }
    r := Some(seconds);
  }

  method DecodeSeconds(seconds: map<ChannelID, nat>) returns (r: map<ChannelID, nat>)
    ensures r.Keys == seconds.Keys && forall c :: c in seconds ==> r[c] == seconds[c] * SECOND
  {
    r := map[];
    var todo := seconds.Keys;
    while todo != {}
      invariant todo <= seconds.Keys && r.Keys == seconds.Keys - todo
      invariant forall c :: c in r ==> r[c] == seconds[c] * SECOND
      decreases |todo|
    {
      var c :| c in todo;
      r, todo := r[c := seconds[c] * SECOND], todo - {c};
    }
  }

  /** Encodes an outcome and decodes it again, as it reaches the next round. Version 0 keeps
      the whole seconds of every watermark, and fails exactly when a watermark is beyond 32
      bits of seconds or the time beyond 63 bits; later versions keep everything. */
  method Persist(config: Config, out: Outcome) returns (r: Option<Outcome>)
    ensures r.Some? <==> Encodable(config, out)
    ensures r.Some? ==> r.value == Stored(config, out)
    ensures config.version != 0 ==> r == Some(out)
    ensures config.version == 0 ==>
              (r.None? <==>
                 || out.observedAt > MAX_INT64
                 || exists c :: c in out.validAfter && out.validAfter[c] / SECOND > MAX_UINT32)
    ensures config.version == 0 && r.Some? ==>
              && r.value.(validAfter := out.validAfter) == out && r.value.validAfter.Keys == out.validAfter.Keys
              && forall c :: c in out.validAfter ==>
                   && r.value.validAfter[c] % SECOND == 0
                   && r.value.validAfter[c] <= out.validAfter[c] < r.value.validAfter[c] + SECOND
  {
    if config.version != 0 {
      assert Restamped(config, out.validAfter) == out.validAfter;
      return Some(out);
    }
    var seconds := EncodeSeconds(out.validAfter);
    if seconds.None? || out.observedAt > MAX_INT64 {
      return None;
    }
    var validAfter := DecodeSeconds(seconds.value);
    assert validAfter == Restamped(config, out.validAfter);
    r := Some(out.(validAfter := validAfter));
  }
}
