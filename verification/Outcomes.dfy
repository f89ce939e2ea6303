/** The outcome state machine of the OCR3.0 plugin (llo/v30/plugin_outcome.go).

    `Advance` is one round as a function of what the round decided; every run
    theorem below holds for every sequence of decisions. */
module Outcomes {
  import opened Collections
  import opened Tallies

  const SECOND: nat := 1_000_000_000

  datatype Stage = Staging | Production | Retired

  /** A missing map is told apart from an empty one, as the report encoding does. */
  datatype RetirementReport = RetirementReport(version: nat, validAfter: Option<map<ChannelID, nat>>)

  datatype Outcome = Outcome(
    stage: Stage, observedAt: nat, definitions: map<ChannelID, Definition>,
    validAfter: map<ChannelID, nat>, aggregates: set<Stream>)

  /** Backfill rows by raw timestamp key, and the channel they are published under. */
  datatype BackfillOpts = BackfillOpts(target: ChannelID, rows: set<nat>)

  /** Instance parameters. Decoded opts are functions of the definition alone. */
  datatype Config = Config(
    f: nat, version: nat, minInterval: nat, hasPredecessor: bool,
    optsInSeconds: seq<byte> -> bool,
    expressionIDs: seq<byte> -> seq<StreamID>,
    backfillOpts: Definition -> Option<BackfillOpts>,
    resolutionNanos: Definition -> Option<nat>)

  predicate ConfigOk(config: Config) {
    config.minInterval < TWO_64
  }

  // ------------------------------------------------------------ backfill rows

  /** A raw key in nanoseconds, unless scaling it would wrap. */
  function KeyNanos(raw: nat, multiplier: nat): Option<nat> {
    if multiplier > 0 && raw <= (TWO_64 - 1) / multiplier then Some(raw * multiplier) else None
  }

  /** Where a backfill channel stands: its target's tick and its watermark. */
  function BackfillTick(config: Config, out: Outcome, c: ChannelID): Option<nat> {
    if c !in out.definitions || !out.definitions[c].format.HistoryBackfill? || c !in out.validAfter then None
    else
      match config.backfillOpts(out.definitions[c])
      case None => None
      case Some(opts) =>
        if opts.target in out.definitions then config.resolutionNanos(out.definitions[opts.target]) else None
  }

  ghost predicate Selectable(rows: set<nat>, tick: nat, after: nat, before: nat, raw: nat) {
    raw in rows && KeyNanos(raw, tick).Some? && after < KeyNanos(raw, tick).value < before
  }

  /** The earliest selectable row. */
  ghost predicate Earliest(rows: set<nat>, tick: nat, after: nat, before: nat, raw: nat) {
    && Selectable(rows, tick, after, before, raw)
    && forall r :: Selectable(rows, tick, after, before, r) ==> raw <= r
  }

  /** The raw key of the row a backfill channel emits next. */
  ghost function NextRow(config: Config, out: Outcome, c: ChannelID): Option<nat> {
    match BackfillTick(config, out, c)
    case None => None
    case Some(tick) =>
      var rows, after := config.backfillOpts(out.definitions[c]).value.rows, out.validAfter[c];
      if exists raw :: Earliest(rows, tick, after, out.observedAt, raw)
      then var raw :| Earliest(rows, tick, after, out.observedAt, raw); Some(raw)
      else None
  }

  // ------------------------------------------------------------ reportability

  predicate SecondsResolution(config: Config, cd: Definition) {
    cd.format.PremiumLegacy? || (cd.format.AbiUnpacked? && config.optsInSeconds(cd.opts))
  }

  predicate AllPresent(cd: Definition, aggregates: set<Stream>) {
    forall s :: s in cd.streams ==> s in aggregates
  }

  /** Whether the time since the watermark allows a report; the sum wraps at 64 bits. */
  predicate IntervalOk(config: Config, cd: Definition, after: nat, now: nat) {
    && (config.version > 0 ==> now >= (after + config.minInterval) % TWO_64)
    && (config.version == 0 || SecondsResolution(config, cd) ==> after / SECOND < now / SECOND)
  }

  ghost predicate Reportable(config: Config, out: Outcome, c: ChannelID) {
    && !out.stage.Retired?
    && c in out.definitions && !out.definitions[c].tombstone
    && if out.definitions[c].format.HistoryBackfill? then out.stage.Production? && NextRow(config, out, c).Some?
       else
         && (out.definitions[c].disableNilStreamValues ==> AllPresent(out.definitions[c], out.aggregates))
         && c in out.validAfter
         && IntervalOk(config, out.definitions[c], out.validAfter[c], out.observedAt)
  }

  // -------------------------------------------------------------- one round

  /** A definition that was voted in, with the hash its votes were counted under. */
  datatype Winner = Winner(id: ChannelID, hash: nat, definition: Definition)

  /** What a round decided from its observations. */
  datatype Decision = Decision(
    observedAt: nat, report: Option<RetirementReport>, retire: bool,
    removed: set<ChannelID>, winners: seq<Winner>, aggregates: set<Stream>, evaluated: set<ChannelID>)

  function Install(defs: map<ChannelID, Definition>, w: Winner): map<ChannelID, Definition> {
    if w.id in defs || |defs| < MAX_CHANNELS then defs[w.id := w.definition] else defs
  }

  function InstallAll(defs: map<ChannelID, Definition>, winners: seq<Winner>): map<ChannelID, Definition> {
    if winners == [] then defs
    else Install(InstallAll(defs, winners[..|winners| - 1]), winners[|winners| - 1])
  }

  predicate Promotes(prev: Outcome, d: Decision) { prev.stage.Staging? && d.report.Some? }

  function NextStage(prev: Outcome, d: Decision): Stage {
    var stage := if Promotes(prev, d) then Production else prev.stage;
    if stage.Production? && d.retire then Retired else stage
  }

  /** A retired instance ignores channel votes. */
  function Removals(prev: Outcome, d: Decision): set<ChannelID> {
    if NextStage(prev, d).Retired? then {} else d.removed
  }

  function VotedDefinitions(prev: Outcome, d: Decision): map<ChannelID, Definition> {
    if NextStage(prev, d).Retired? then prev.definitions else InstallAll(prev.definitions - d.removed, d.winners)
  }

  /** The previous outcome as the watermark pass sees it. The definitions are updated
      in place, so a non-empty map already shows this round's changes. */
  function Seen(prev: Outcome, d: Decision): Outcome {
    prev.(definitions := if prev.definitions == map[] then map[] else VotedDefinitions(prev, d))
  }

  ghost function Carried(config: Config, seen: Outcome, c: ChannelID): nat
    requires c in seen.validAfter
  {
    if c in seen.definitions && seen.definitions[c].format.HistoryBackfill? then
      if !seen.stage.Production? || NextRow(config, seen, c).None? then seen.validAfter[c]
      else KeyNanos(NextRow(config, seen, c).value, BackfillTick(config, seen, c).value).value
    else if Reportable(config, seen, c) then seen.observedAt
    else seen.validAfter[c]
  }

  predicate Inherits(prev: Outcome, d: Decision) { Promotes(prev, d) && d.report.value.validAfter.Some? }

  ghost function BaseWatermarks(config: Config, prev: Outcome, d: Decision): map<ChannelID, nat> {
    if Inherits(prev, d) then d.report.value.validAfter.value
    else map c | c in prev.validAfter :: Carried(config, Seen(prev, d), c)
  }

  function NewWatermark(cd: Definition, observedAt: nat): nat {
    if cd.format.HistoryBackfill? then 0 else observedAt
  }

  ghost function NextWatermarks(config: Config, prev: Outcome, d: Decision): map<ChannelID, nat> {
    var base, defs := BaseWatermarks(config, prev, d), VotedDefinitions(prev, d);
    map c | c in base.Keys + defs.Keys - Removals(prev, d) ::
      if c in base then base[c] else NewWatermark(defs[c], d.observedAt)
  }

  // ------------------------------------------------------- calculated streams

  function CalculatedStreams(ids: seq<StreamID>): seq<Stream> {
    seq(|ids|, i requires 0 <= i < |ids| => Stream(ids[i], Calculated))
  }

  /** An evaluated definition lists its calculated streams, unless its last stream already
      has the ID of the last of them. */
  function WithCalculated(config: Config, cd: Definition): Definition {
    var ids := config.expressionIDs(cd.opts);
    if cd.tombstone || !HasCalculatedStreams(cd) || cd.streams == [] || ids == [] then cd
    else if cd.streams[|cd.streams| - 1].id == ids[|ids| - 1] then cd
    else cd.(streams := cd.streams + CalculatedStreams(ids))
  }

  /** The definitions after the expressions of some channels were evaluated. */
  function Appended(
    config: Config, defs: map<ChannelID, Definition>, evaluated: set<ChannelID>): map<ChannelID, Definition>
  {
    map c | c in defs :: if c in evaluated then WithCalculated(config, defs[c]) else defs[c]
  }

  /** The definitions a round commits: what was voted, with calculated streams appended. */
  function NextDefinitions(config: Config, prev: Outcome, d: Decision): map<ChannelID, Definition> {
    Appended(config, VotedDefinitions(prev, d), d.evaluated)
  }

  ghost function Advance(config: Config, prev: Outcome, d: Decision): Outcome {
    Outcome(NextStage(prev, d), d.observedAt, NextDefinitions(config, prev, d), NextWatermarks(config, prev, d),
        d.aggregates)
  }

  // -------------------------------------------------- between rounds: the codec

  /** Version 0 stores watermarks in whole seconds. */
  function Stamp(config: Config, t: nat): nat { if config.version == 0 then t / SECOND * SECOND else t }

  function Restamped(config: Config, validAfter: map<ChannelID, nat>): map<ChannelID, nat> {
    map c | c in validAfter :: Stamp(config, validAfter[c])
  }

  /** An outcome as the next round and the reports decode it. */
  function Stored(config: Config, out: Outcome): Outcome { out.(validAfter := Restamped(config, out.validAfter)) }

  /** Version 0 cannot represent every time; encoding then fails and the round does not commit. */
  predicate Encodable(config: Config, out: Outcome) {
    config.version == 0 ==>
      && out.observedAt < 0x8000_0000_0000_0000
      && forall c :: c in out.validAfter ==> out.validAfter[c] / SECOND < 0x1_0000_0000
  }

  function Initial(config: Config): Outcome {
    Outcome(if config.hasPredecessor then Staging else Production, 0, map[], map[], {})
  }

  ghost predicate IsStep(config: Config, prev: Outcome, d: Decision, next: Outcome) {
    Encodable(config, Advance(config, prev, d)) && next == Stored(config, Advance(config, prev, d))
  }

  /** A run of committed outcomes, one decision between each two. */
  ghost predicate IsRun(config: Config, states: seq<Outcome>, decisions: seq<Decision>) {
    && |states| == |decisions| + 1
    && forall i :: 0 <= i < |decisions| ==> IsStep(config, states[i], decisions[i], states[i + 1])
  }
}
