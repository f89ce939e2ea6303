/** What every run of committed outcomes keeps (llo/v30/plugin_outcome.go,
    llo/v30/plugin_reports.go). */
module OutcomeRuns {
  import opened Collections
  import opened Tallies
  import opened Outcomes

  // ---------------------------------------------------------------- lifecycle

  function Rank(stage: Stage): nat { match stage case Staging => 0 case Production => 1 case Retired => 2 }

  lemma {:induction false} RunDrop(config: Config, states: seq<Outcome>, decisions: seq<Decision>)
    requires IsRun(config, states, decisions) && decisions != []
    ensures IsRun(config, states[..|states| - 1], decisions[..|decisions| - 1])
    ensures IsStep(config, states[|states| - 2], decisions[|decisions| - 1], states[|states| - 1])
  {
    hide IsStep;
  }

  /** The lifecycle only moves from staging to production to retired. */
  lemma {:induction false} LifecycleMovesForward(config: Config, states: seq<Outcome>, decisions: seq<Decision>, i: nat)
    requires IsRun(config, states, decisions) && i < |states|
    ensures Rank(states[i].stage) <= Rank(states[|states| - 1].stage)
    decreases |states|
  {
    hide VotedDefinitions, NextWatermarks, Encodable, Restamped;
    if i < |states| - 1 {
      RunDrop(config, states, decisions);
      LifecycleMovesForward(config, states[..|states| - 1], decisions[..|decisions| - 1], i);
    }
  }

  /** Over every run the stage is what the rounds so far decided: staging ends in exactly
      the first round with a valid retirement report, and an instance that is out of staging
      by then is retired in exactly the first round that votes so. */
  lemma {:induction false} StageChangesAreDecided(config: Config, states: seq<Outcome>, decisions: seq<Decision>)
    requires IsRun(config, states, decisions)
    ensures var last, n := states[|states| - 1].stage, |decisions|;
            && (last.Staging? <==> states[0].stage.Staging? && forall i :: 0 <= i < n ==> decisions[i].report.None?)
            && (last.Retired? <==>
                  || states[0].stage.Retired?
                  || exists i, j :: 0 <= i < n && decisions[i].retire
                       && (states[0].stage.Staging? ==> 0 <= j <= i && decisions[j].report.Some?))
    decreases |states|
  {
    hide VotedDefinitions, NextWatermarks, Encodable, Restamped;
    if decisions != [] {
      var n := |decisions| - 1;
      RunDrop(config, states, decisions);
      StageChangesAreDecided(config, states[..n + 1], decisions[..n]);
      StageStep(config, states[n], decisions[n], states[n + 1]);
      assert forall i :: 0 <= i < n ==> decisions[..n][i] == decisions[i];
      if states[n + 1].stage.Retired? && !states[n].stage.Retired? {
        assert decisions[n].retire;
        if states[0].stage.Staging? && decisions[n].report.None? {
          var j :| 0 <= j < n && decisions[..n][j].report.Some?;
          assert decisions[j].report.Some?;
        }
      }
    }
  }

  lemma StageStep(config: Config, prev: Outcome, d: Decision, next: Outcome)
    requires IsStep(config, prev, d, next)
    ensures next.stage.Staging? <==> prev.stage.Staging? && d.report.None?
    ensures next.stage.Retired? <==>
              prev.stage.Retired? || (d.retire && (prev.stage.Production? || d.report.Some?))
  {
    hide VotedDefinitions, NextWatermarks, Encodable, Restamped, NextDefinitions;
  }

  /** An instance without a predecessor is never in staging; one with a predecessor stays
      there until a valid report of it arrives. */
  lemma InstanceStages(config: Config, states: seq<Outcome>, decisions: seq<Decision>)
    requires IsRun(config, states, decisions) && states[0] == Initial(config)
    ensures states[|states| - 1].stage == Staging <==>
            config.hasPredecessor && forall i :: 0 <= i < |decisions| ==> decisions[i].report == None
    ensures states[|states| - 1].stage == Retired <==>
            exists i, j :: 0 <= i < |decisions| && decisions[i].retire
              && (config.hasPredecessor ==> 0 <= j <= i && decisions[j].report != None)
  {
    hide IsRun;
    StageChangesAreDecided(config, states, decisions);
  }

  /** A report of the predecessor changes nothing once the instance is out of staging. */
  lemma ReportOnlyPromotes(config: Config, prev: Outcome, d: Decision, next: Outcome)
    requires prev.stage != Staging
    ensures IsStep(config, prev, d, next) <==> IsStep(config, prev, d.(report := None), next)
  {
    hide Encodable, InstallAll, Carried, Restamped, Appended;
    var e := d.(report := None);
    assert BaseWatermarks(config, prev, d) == BaseWatermarks(config, prev, e);
    assert NextWatermarks(config, prev, d) == NextWatermarks(config, prev, e);
  }

  // ---------------------------------------------------------------------- cap

  lemma {:induction false} InstallKeepsCap(defs: map<ChannelID, Definition>, winners: seq<Winner>)
    requires |defs| <= MAX_CHANNELS
    ensures |InstallAll(defs, winners)| <= MAX_CHANNELS
  {
    if winners != [] {
      var w, before := winners[|winners| - 1], InstallAll(defs, winners[..|winners| - 1]);
      InstallKeepsCap(defs, winners[..|winners| - 1]);
      if w.id in before { assert before[w.id := w.definition].Keys == before.Keys; }
    }
  }

  lemma FewerKeys<K, V>(m: map<K, V>, s: set<K>)
    ensures |m - s| <= |m|
  {
    assert (m - s).Keys == m.Keys - s;
    assert m.Keys == (m.Keys - s) + (m.Keys * s);
  }

  lemma AppendedKeys(config: Config, defs: map<ChannelID, Definition>, evaluated: set<ChannelID>)
    ensures Appended(config, defs, evaluated).Keys == defs.Keys
  {
  }

  lemma SameSize(a: map<ChannelID, Definition>, b: map<ChannelID, Definition>)
    requires a.Keys == b.Keys
    ensures |a| == |b|
  {
    assert |a.Keys| == |a| && |b.Keys| == |b|;
  }

  /** No reachable outcome holds more channels than the maximum, whatever was voted. */
  lemma {:induction false} CapHolds(config: Config, states: seq<Outcome>, decisions: seq<Decision>)
    requires IsRun(config, states, decisions) && |states[0].definitions| <= MAX_CHANNELS
    ensures |states[|states| - 1].definitions| <= MAX_CHANNELS
    decreases |states|
  {
    hide NextWatermarks, Encodable, Restamped, InstallAll;
    if decisions != [] {
      RunDrop(config, states, decisions);
      CapHolds(config, states[..|states| - 1], decisions[..|decisions| - 1]);
      var prev, d := states[|states| - 2], decisions[|decisions| - 1];
      FewerKeys(prev.definitions, d.removed);
      InstallKeepsCap(prev.definitions - d.removed, d.winners);
      AppendedKeys(config, VotedDefinitions(prev, d), d.evaluated);
      SameSize(NextDefinitions(config, prev, d), VotedDefinitions(prev, d));
    }
  }

  /** Whatever is decided, every outcome reachable from the initial one keeps the cap. */
  lemma ReachableKeepsCap(config: Config, states: seq<Outcome>, decisions: seq<Decision>)
    requires IsRun(config, states, decisions) && states[0] == Initial(config)
    ensures |states[|states| - 1].definitions| <= MAX_CHANNELS
  {
    hide IsStep;
    CapHolds(config, states, decisions);
  }

  // ------------------------------------------------------------------- tiling

  /** The watermarks survive the codec unchanged. */
  predicate Stamped(config: Config, out: Outcome) {
    forall c :: c in out.validAfter ==> Stamp(config, out.validAfter[c]) == out.validAfter[c]
  }

  lemma StampTwice(config: Config, t: nat)
    ensures Stamp(config, Stamp(config, t)) == Stamp(config, t)
  {
  }

  lemma StepStamped(config: Config, prev: Outcome, d: Decision, next: Outcome)
    requires IsStep(config, prev, d, next)
    ensures Stamped(config, next)
  {
    hide Advance, Stamp;
    forall c | c in next.validAfter ensures Stamp(config, next.validAfter[c]) == next.validAfter[c] {
      StampTwice(config, Advance(config, prev, d).validAfter[c]);
    }
  }

  /** Two definitions that report alike: equal up to their streams and their source. */
  predicate Alike(a: Definition, b: Definition) { a.(streams := b.streams, source := b.source) == b }

  /** Between two outcomes channel `c` stays live and reports like `cd`: it keeps its
      watermark, no predecessor's watermarks are taken over, and what is voted for it, if
      anything, lists the same streams if those decide whether it reports. */
  ghost predicate KeepsChannel(prev: Outcome, d: Decision, c: ChannelID, cd: Definition) {
    && c in prev.definitions && Alike(prev.definitions[c], cd) && !cd.format.HistoryBackfill?
    && c in prev.validAfter
    && c in VotedDefinitions(prev, d) && Alike(VotedDefinitions(prev, d)[c], cd)
    && (cd.disableNilStreamValues ==> VotedDefinitions(prev, d)[c].streams == prev.definitions[c].streams)
    && c !in Removals(prev, d) && !Inherits(prev, d)
  }

  lemma AppendedAlike(config: Config, cd: Definition)
    ensures Alike(WithCalculated(config, cd), cd)
  {
  }

  /** A reported round moves the watermark to its observation time; any other round
      leaves it where it is. */
  lemma WatermarkStep(config: Config, prev: Outcome, d: Decision, next: Outcome, c: ChannelID, cd: Definition)
    requires IsStep(config, prev, d, next) && Stamped(config, prev) && KeepsChannel(prev, d, c, cd)
    ensures c in next.validAfter && c in next.definitions && Alike(next.definitions[c], cd)
    ensures next.validAfter[c] == if Reportable(config, prev, c) then Stamp(config, prev.observedAt)
              else prev.validAfter[c]
  {
    hide Encodable, NextRow, VotedDefinitions, NextStage, Stamp, WithCalculated;
    assert Reportable(config, Seen(prev, d), c) == Reportable(config, prev, c);
    AppendedAlike(config, VotedDefinitions(prev, d)[c]);
  }

  /** When a channel other than a backfill is due a report, in terms of its fields: it is
      live, has its values if it demands them, and the time since its watermark is at least
      the minimum interval (the sum taken in 64 bits) and, where times have second
      resolution, reaches a later second. */
  predicate ReportDue(config: Config, out: Outcome, c: ChannelID)
    requires c in out.definitions
  {
    var cd := out.definitions[c];
    && (out.stage == Staging || out.stage == Production) && !cd.tombstone && c in out.validAfter
    && (cd.disableNilStreamValues ==> forall i :: 0 <= i < |cd.streams| ==> cd.streams[i] in out.aggregates)
    && (config.version >= 1 ==> out.observedAt >= (out.validAfter[c] + config.minInterval) % 0x1_0000_0000_0000_0000)
    && (|| config.version == 0 || cd.format == PremiumLegacy
        || (cd.format == AbiUnpacked && config.optsInSeconds(cd.opts)) ==>
          out.validAfter[c] / 1_000_000_000 < out.observedAt / 1_000_000_000)
  }

  lemma ReportableIff(config: Config, out: Outcome, c: ChannelID)
    requires c in out.definitions && out.definitions[c].format != HistoryBackfill
    ensures Reportable(config, out, c) <==> ReportDue(config, out, c)
  {
    hide NextRow;
  }

  /** Everything a report of channel `c` needs apart from its stream values. */
  predicate Due(config: Config, out: Outcome, c: ChannelID)
    requires c in out.definitions && c in out.validAfter
  {
    !out.stage.Retired? && !out.definitions[c].tombstone &&
        IntervalOk(config, out.definitions[c], out.validAfter[c], out.observedAt)
  }

  /** The watermark pass already sees what this round voted, the reports of the previous
      outcome do not. For a channel that is voted again with other streams, the watermark
      follows the report exactly unless values are required and present for only one of
      the two stream lists; an expression channel voted without its calculated streams is
      moved on like that without a report. */
  lemma WatermarkFollowsReportIff(config: Config, prev: Outcome, d: Decision, next: Outcome, c: ChannelID)
    requires IsStep(config, prev, d, next) && Stamped(config, prev)
    requires c in prev.definitions && c in prev.validAfter && !prev.definitions[c].format.HistoryBackfill?
    requires c in VotedDefinitions(prev, d) && Alike(VotedDefinitions(prev, d)[c], prev.definitions[c])
    requires c !in Removals(prev, d) && !Inherits(prev, d)
    ensures c in next.validAfter
    ensures next.validAfter[c] == (if Reportable(config, prev, c) then Stamp(config, prev.observedAt)
              else prev.validAfter[c])
       <==> || Stamp(config, prev.observedAt) == prev.validAfter[c]
            || !Due(config, prev, c) || !prev.definitions[c].disableNilStreamValues
            || (AllPresent(VotedDefinitions(prev, d)[c], prev.aggregates) <==>
                AllPresent(prev.definitions[c], prev.aggregates))
  {
    hide Encodable, NextRow, VotedDefinitions, NextStage, Stamp, WithCalculated, AllPresent, IntervalOk;
    AlikeInterval(config, VotedDefinitions(prev, d)[c], prev.definitions[c], prev.validAfter[c], prev.observedAt);
    assert next.validAfter[c] == if Reportable(config, Seen(prev, d), c) then Stamp(config, prev.observedAt)
        else prev.validAfter[c];
  }

  lemma AlikeInterval(config: Config, a: Definition, b: Definition, after: nat, now: nat)
    requires Alike(a, b)
    ensures IntervalOk(config, a, after, now) == IntervalOk(config, b, after, now)
  {
  }

  /** The time span of one report, open at the start and closed at the end. */
  datatype Interval = Interval(start: nat, end: nat)

  /** The intervals reported for a channel over a sequence of outcomes. */
  ghost function Reports(config: Config, states: seq<Outcome>, c: ChannelID): seq<Interval> {
    if states == [] then []
    else
      var last := states[|states| - 1];
      Reports(config, states[..|states| - 1], c) +
      if Reportable(config, last, c) && c in last.validAfter then [Interval(last.validAfter[c], last.observedAt)]
          else []
  }

  /** A round of the run is reported over the time since its watermark exactly when the
      channel is reportable in it. */
  lemma {:induction false} DueRoundsAreReported(config: Config, states: seq<Outcome>, c: ChannelID, span: Interval)
    ensures span in Reports(config, states, c) <==>
            exists i :: 0 <= i < |states| && Reportable(config, states[i], c) && c in states[i].validAfter
              && span == Interval(states[i].validAfter[c], states[i].observedAt)
    decreases |states|
  {
    hide Reportable;
    if states != [] {
      var n := |states| - 1;
      DueRoundsAreReported(config, states[..n], c, span);
      if i :| 0 <= i < n && Reportable(config, states[i], c) && c in states[i].validAfter
              && span == Interval(states[i].validAfter[c], states[i].observedAt) {
        assert states[..n][i] == states[i];
      }
    }
  }

  /** Every round in which a channel is due is reported. */
  lemma DueIsReported(config: Config, states: seq<Outcome>, c: ChannelID, i: nat)
    requires i < |states| && c in states[i].definitions && states[i].definitions[c].format != HistoryBackfill
    requires ReportDue(config, states[i], c)
    ensures Interval(states[i].validAfter[c], states[i].observedAt) in Reports(config, states, c)
  {
    hide Reportable;
    ReportableIff(config, states[i], c);
    DueRoundsAreReported(config, states, c, Interval(states[i].validAfter[c], states[i].observedAt));
  }

  ghost predicate Tiles(config: Config, reports: seq<Interval>, start: nat) {
    && (reports != [] ==> reports[0].start == start)
    && forall i :: 0 <= i < |reports| - 1 ==> reports[i + 1].start == Stamp(config, reports[i].end)
  }

  function EndOf(config: Config, reports: seq<Interval>, start: nat): nat {
    if reports == [] then start else Stamp(config, reports[|reports| - 1].end)
  }

  ghost predicate KeptThroughout(
    config: Config, states: seq<Outcome>, decisions: seq<Decision>, c: ChannelID, cd: Definition)
  {
    && IsRun(config, states, decisions) && Stamped(config, states[0])
    && c in states[0].definitions && Alike(states[0].definitions[c], cd) && c in states[0].validAfter
    && forall i :: 0 <= i < |decisions| ==> KeepsChannel(states[i], decisions[i], c, cd)
  }

  lemma KeptDrop(config: Config, states: seq<Outcome>, decisions: seq<Decision>, c: ChannelID, cd: Definition)
    requires KeptThroughout(config, states, decisions, c, cd) && decisions != []
    ensures KeptThroughout(config, states[..|states| - 1], decisions[..|decisions| - 1], c, cd)
  {
    hide KeepsChannel, IsStep, Stamped;
    RunDrop(config, states, decisions);
  }

  /** The intervals of a live channel follow each other with no gap and no overlap,
      and the watermark is always where the last one ended. */
  lemma {:induction false} IntervalsTile(
    config: Config, states: seq<Outcome>, decisions: seq<Decision>, c: ChannelID, cd: Definition)
    requires KeptThroughout(config, states, decisions, c, cd)
    ensures Tiles(config, Reports(config, states, c), states[0].validAfter[c])
    ensures Stamped(config, states[|states| - 1]) && c in states[|states| - 1].validAfter
    ensures states[|states| - 1].validAfter[c] == EndOf(config, Reports(config, states[..|states| - 1], c),
              states[0].validAfter[c])
    decreases |states|
  {
    hide KeepsChannel, IsStep, Reportable, Stamp, Stamped;
    var n := |states| - 1;
    var last := states[n];
    assert c in last.validAfter &&
        last.validAfter[c] == EndOf(config, Reports(config, states[..n], c), states[0].validAfter[c])
        && Tiles(config, Reports(config, states[..n], c), states[0].validAfter[c]) && Stamped(config, last)
    by {
      if decisions == [] {
        assert states[..n] == [];
      } else {
        KeptDrop(config, states, decisions, c, cd);
        IntervalsTile(config, states[..n], decisions[..n - 1], c, cd);
        WatermarkStep(config, states[n - 1], decisions[n - 1], last, c, cd);
        StepStamped(config, states[n - 1], decisions[n - 1], last);
        assert states[..n][..n - 1] == states[..n - 1];
      }
    }
  }

  // -------------------------------------------- non-empty, and never backwards

  /** The sum of watermark and minimum interval fits 64 bits. */
  predicate NoWrap(config: Config, after: nat) { after + config.minInterval < TWO_64 }

  function NextSecond(t: nat): nat { (t / SECOND + 1) * SECOND }

  /** What a report's interval covers: at least one nanosecond when the minimum
      interval is positive, at least one whole second for version 0. */
  lemma ReportedIntervals(config: Config, out: Outcome, c: ChannelID)
    requires Reportable(config, out, c) && !out.definitions[c].format.HistoryBackfill?
    requires config.version > 0 ==> NoWrap(config, out.validAfter[c])
    ensures config.version > 0 ==> out.validAfter[c] + config.minInterval <= out.observedAt
    ensures config.version == 0 || SecondsResolution(config, out.definitions[c]) ==>
              out.validAfter[c] / SECOND < out.observedAt / SECOND
    ensures out.validAfter[c] <= out.observedAt
  {
    hide NextRow, AllPresent;
  }

  /** The minimum interval is enforced at every observation time exactly when the sum
      does not wrap, or the whole-second guard leaves no later time to report at. Without
      that guard a wrapped sum even lets a report end before it starts. */
  lemma WrapIsExact(config: Config, cd: Definition, after: nat)
    requires config.version > 0 && after < TWO_64 && ConfigOk(config)
    ensures (forall now: nat :: now < TWO_64 && IntervalOk(config, cd, after, now) ==>
              after + config.minInterval <= now)
       <==> NoWrap(config, after) || (SecondsResolution(config, cd) && NextSecond(after) >= TWO_64)
    ensures (exists now: nat :: now < after && IntervalOk(config, cd, after, now))
       <==> !NoWrap(config, after) && !SecondsResolution(config, cd)
  {
    hide SecondsResolution;
    var wrapped := (after + config.minInterval) % TWO_64;
    if !NoWrap(config, after) {
      assert wrapped == after + config.minInterval - TWO_64;
      if SecondsResolution(config, cd) {
        assert NextSecond(after) / SECOND == after / SECOND + 1;
        assert IntervalOk(config, cd, after, NextSecond(after));
      } else {
        assert IntervalOk(config, cd, after, wrapped);
      }
    }
  }

  /** The watermark of a live channel never regresses, even if the median time does. */
  lemma {:induction false} WatermarkNeverRegresses(
    config: Config, states: seq<Outcome>, decisions: seq<Decision>, c: ChannelID, cd: Definition, i: nat)
    requires KeptThroughout(config, states, decisions, c, cd) && i < |states|
    requires NeverWraps(config, states, c)
    ensures c in states[i].validAfter && c in states[|states| - 1].validAfter
    ensures states[i].validAfter[c] <= states[|states| - 1].validAfter[c]
    decreases |states|
  {
    hide KeepsChannel, IsStep, Reportable, Stamped, NoWrap;
    IntervalsTile(config, states, decisions, c, cd);
    if i < |states| - 1 {
      var n := |states| - 1;
      KeptDrop(config, states, decisions, c, cd);
      WatermarkNeverRegresses(config, states[..n], decisions[..n - 1], c, cd, i);
      IntervalsTile(config, states[..n], decisions[..n - 1], c, cd);
      WatermarkStep(config, states[n - 1], decisions[n - 1], states[n], c, cd);
      KeptNow(states[n - 1], decisions[n - 1], c, cd);
      if Reportable(config, states[n - 1], c) { ReportedIntervals(config, states[n - 1], c); }
      StampKeepsOrder(config, states[n - 1], c);
    }
  }

  lemma KeptNow(prev: Outcome, d: Decision, c: ChannelID, cd: Definition)
    requires KeepsChannel(prev, d, c, cd)
    ensures c in prev.definitions && !prev.definitions[c].format.HistoryBackfill? && c in prev.validAfter
  {
  }

  lemma StampKeepsOrder(config: Config, out: Outcome, c: ChannelID)
    requires Stamped(config, out) && c in out.validAfter
    ensures out.validAfter[c] <= out.observedAt ==> out.validAfter[c] <= Stamp(config, out.observedAt)
  {
  }

  /** No sum of watermark and minimum interval wraps anywhere in the run. */
  ghost predicate NeverWraps(config: Config, states: seq<Outcome>, c: ChannelID) {
    config.version > 0 ==> forall s :: s in states && c in s.validAfter ==> NoWrap(config, s.validAfter[c])
  }

  /** A report covers at least the minimum interval, and at least one whole second where
      times have that resolution; what the codec keeps of its end is not before its start. */
  predicate Proper(config: Config, cd: Definition, span: Interval) {
    && (config.version > 0 ==> span.start + config.minInterval <= span.end)
    && (config.version == 0 || SecondsResolution(config, cd) ==> span.start / SECOND < span.end / SECOND)
    && span.start <= Stamp(config, span.end)
  }

  lemma {:induction false} ReportsAreProper(
    config: Config, states: seq<Outcome>, decisions: seq<Decision>, c: ChannelID, cd: Definition)
    requires KeptThroughout(config, states, decisions, c, cd) && NeverWraps(config, states, c)
    requires !cd.format.HistoryBackfill?
    ensures forall r :: r in Reports(config, states, c) ==> Proper(config, cd, r)
    decreases |states|
  {
    hide KeepsChannel, IsStep, Reportable, Stamped, NoWrap, Stamp, Proper;
    var n := |states| - 1;
    IntervalsTile(config, states, decisions, c, cd);
    if decisions != [] {
      KeptDrop(config, states, decisions, c, cd);
      ReportsAreProper(config, states[..n], decisions[..n - 1], c, cd);
      IntervalsTile(config, states[..n], decisions[..n - 1], c, cd);
      WatermarkStep(config, states[n - 1], decisions[n - 1], states[n], c, cd);
    } else {
      assert states[..n] == [];
    }
    if Reportable(config, states[n], c) { ReportIsProper(config, states[n], c, cd); }
  }

  lemma ReportIsProper(config: Config, out: Outcome, c: ChannelID, cd: Definition)
    requires Reportable(config, out, c) && Alike(out.definitions[c], cd) && !cd.format.HistoryBackfill?
    requires Stamped(config, out)
    requires config.version > 0 ==> NoWrap(config, out.validAfter[c])
    ensures Proper(config, cd, Interval(out.validAfter[c], out.observedAt))
  {
    hide Stamp, Stamped, IntervalOk, AllPresent;
    ReportedIntervals(config, out, c);
    StampKeepsOrder(config, out, c);
  }

  lemma {:induction false} TilesInOrder(
    config: Config, cd: Definition, reports: seq<Interval>, start: nat, i: nat, j: nat)
    requires Tiles(config, reports, start) && i < j < |reports|
    requires forall r :: r in reports ==> Proper(config, cd, r)
    ensures Stamp(config, reports[i].end) <= reports[j].start
    decreases j
  {
    if i + 1 < j {
      TilesInOrder(config, cd, reports, start, i, j - 1);
      assert reports[j - 1] in reports;
    }
  }

  /** Over a run without wrapping, no report is empty where the source demands a span, and
      every report starts at or after the end of each earlier one. */
  lemma IntervalsInOrder(
    config: Config, states: seq<Outcome>, decisions: seq<Decision>, c: ChannelID, cd: Definition, i: nat, j: nat)
    requires KeptThroughout(config, states, decisions, c, cd) && NeverWraps(config, states, c)
    requires !cd.format.HistoryBackfill?
    requires i < j < |Reports(config, states, c)|
    ensures var reports := Reports(config, states, c);
            Proper(config, cd, reports[i]) && Proper(config, cd, reports[j]) &&
                Stamp(config, reports[i].end) <= reports[j].start
  {
    hide KeptThroughout, NeverWraps, Reports, Proper, Stamp, Tiles;
    IntervalsTile(config, states, decisions, c, cd);
    ReportsAreProper(config, states, decisions, c, cd);
    var reports := Reports(config, states, c);
    assert reports[i] in reports && reports[j] in reports;
    assert c in states[0].validAfter by { StartKept(config, states, decisions, c, cd); }
    TilesInOrder(config, cd, reports, states[0].validAfter[c], i, j);
  }

  lemma StartKept(config: Config, states: seq<Outcome>, decisions: seq<Decision>, c: ChannelID, cd: Definition)
    requires KeptThroughout(config, states, decisions, c, cd)
    ensures states != [] && c in states[0].validAfter
  {
  }

  // ------------------------------------------------------------ new watermarks

  /** A channel that had no watermark starts at the round's time, a backfill at zero;
      version 0 keeps the whole seconds of that. */
  lemma NewChannelStarts(config: Config, prev: Outcome, d: Decision, next: Outcome, c: ChannelID)
    requires IsStep(config, prev, d, next) && c in next.definitions && c !in Removals(prev, d) && c !in prev.validAfter
    requires Inherits(prev, d) ==> c !in d.report.value.validAfter.value
    ensures c in next.validAfter
    ensures next.definitions[c].format == HistoryBackfill ==> next.validAfter[c] == 0
    ensures next.definitions[c].format != HistoryBackfill ==>
              next.validAfter[c] == if config.version == 0 then d.observedAt - d.observedAt % SECOND else d.observedAt
  {
    hide Encodable, VotedDefinitions, NextStage, Removals, Seen, Carried;
    AppendedAlike(config, VotedDefinitions(prev, d)[c]);
  }

  /** While nothing is defined, voting channels in moves no watermark that was kept. */
  lemma EmptySetCarries(config: Config, prev: Outcome, d: Decision, next: Outcome, c: ChannelID)
    requires IsStep(config, prev, d, next) && Stamped(config, prev) && prev.definitions == map[]
    requires c in prev.validAfter && c !in Removals(prev, d) && !Inherits(prev, d)
    ensures c in next.validAfter && next.validAfter[c] == prev.validAfter[c]
  {
    hide Encodable, VotedDefinitions, NextStage, Removals, NextRow, IntervalOk, Stamp;
  }

  // --------------------------------------------------- retirement and handover

  /** The report that carries a retired instance's watermarks to its successor. */
  function GenRetirementReport(config: Config, out: Outcome): RetirementReport {
    RetirementReport(config.version, if out.validAfter == map[] then None else Some(out.validAfter))
  }

  function VotedIn(winners: seq<Winner>): set<ChannelID> { set w | w in winners :: w.id }

  lemma VotedInNext(winners: seq<Winner>)
    requires winners != []
    ensures VotedIn(winners) == VotedIn(winners[..|winners| - 1]) + {winners[|winners| - 1].id}
  {
    var n := |winners| - 1;
    assert winners == winners[..n] + [winners[n]];
    assert winners[n] in winners;
    forall w | w in winners[..n] ensures w.id in VotedIn(winners) {
      assert w in winners;
    }
  }

  /** Of the known channels, all are present while they fit, and otherwise no room is left. */
  ghost predicate Filled(known: set<ChannelID>, present: set<ChannelID>) {
    && present <= known
    && (|known| <= MAX_CHANNELS ==> present == known)
    && (|known| >= MAX_CHANNELS ==> |present| >= MAX_CHANNELS)
  }

  function Placed(present: set<ChannelID>, id: ChannelID): set<ChannelID> {
    if id in present || |present| < MAX_CHANNELS then present + {id} else present
  }

  lemma FilledNext(known: set<ChannelID>, present: set<ChannelID>, id: ChannelID)
    requires Filled(known, present)
    ensures Filled(known + {id}, Placed(present, id)) && present <= Placed(present, id)
  {
    OneMore(known, id);
    OneMore(present, id);
    SubsetSize(present, known);
    if id in present { assert present + {id} == present; }
  }

  /** Winners are installed until the cap is reached. */
  lemma {:induction false} InstalledKeys(defs: map<ChannelID, Definition>, winners: seq<Winner>)
    ensures defs.Keys <= InstallAll(defs, winners).Keys
    ensures Filled(defs.Keys + VotedIn(winners), InstallAll(defs, winners).Keys)
  {
    hide VotedIn, Filled, Install, Placed;
    if winners == [] {
      NoneVotedIn();
      assert defs.Keys + {} == defs.Keys;
      FilledItself(defs.Keys);
    } else {
      var n := |winners| - 1;
      var id, before := winners[n].id, InstallAll(defs, winners[..n]);
      InstalledKeys(defs, winners[..n]);
      VotedInNext(winners);
      assert defs.Keys + VotedIn(winners) == defs.Keys + VotedIn(winners[..n]) + {id};
      FilledNext(defs.Keys + VotedIn(winners[..n]), before.Keys, id);
      InstallKeys(before, winners[n]);
    }
  }

  lemma FilledItself(s: set<ChannelID>)
    ensures Filled(s, s)
  {
  }

  lemma InstallKeys(defs: map<ChannelID, Definition>, w: Winner)
    ensures Install(defs, w).Keys == Placed(defs.Keys, w.id)
  {
    assert |defs.Keys| == |defs|;
  }

  lemma NoneVotedIn()
    ensures VotedIn([]) == {}
  {
  }

  lemma OneMore(s: set<ChannelID>, id: ChannelID)
    ensures |s + {id}| == |s| + if id in s then 0 else 1
  {
    if id in s { assert s + {id} == s; }
  }

  /** No removed channel is voted in again while there is room for it. */
  predicate NoRoomToReturn(prev: Outcome, d: Decision) {
    forall i :: 0 <= i < |d.winners| && d.winners[i].id in d.removed ==>
      |(prev.definitions.Keys - d.removed) + VotedIn(d.winners[..i])| >= MAX_CHANNELS
  }

  lemma {:induction false} NoneReturns(defs: map<ChannelID, Definition>, removed: set<ChannelID>, winners: seq<Winner>)
    requires defs.Keys !! removed
    requires forall i :: 0 <= i < |winners| && winners[i].id in removed ==>
               |defs.Keys + VotedIn(winners[..i])| >= MAX_CHANNELS
    ensures InstallAll(defs, winners).Keys !! removed
  {
    hide VotedIn;
    if winners != [] {
      var n := |winners| - 1;
      forall i | 0 <= i < n && winners[..n][i].id in removed
        ensures |defs.Keys + VotedIn(winners[..n][..i])| >= MAX_CHANNELS
      {
        assert winners[..n][..i] == winners[..i];
      }
      NoneReturns(defs, removed, winners[..n]);
      InstalledKeys(defs, winners[..n]);
    }
  }

  lemma {:induction false} OneReturns(defs: map<ChannelID, Definition>, winners: seq<Winner>, i: nat)
    requires i < |winners| && |defs.Keys + VotedIn(winners[..i])| < MAX_CHANNELS
    ensures winners[i].id in InstallAll(defs, winners)
    decreases |winners|
  {
    hide VotedIn;
    var n := |winners| - 1;
    if i == n {
      InstalledKeys(defs, winners[..n]);
    } else {
      assert winners[..n][..i] == winners[..i];
      OneReturns(defs, winners[..n], i);
    }
  }

  /** The channels that stay and those voted in fit together. */
  predicate AllFit(prev: Outcome, d: Decision)
  {
    |(prev.definitions.Keys - d.removed) + VotedIn(d.winners)| <= MAX_CHANNELS
  }

  /** Every defined channel has a watermark after a round exactly when no channel that was
      voted out is voted in again with room for it; such a channel keeps the definition
      and loses the watermark. Below the cap that is: no channel is in both votes. */
  lemma WatermarksCoverDefinitions(config: Config, prev: Outcome, d: Decision, next: Outcome)
    requires IsStep(config, prev, d, next)
    ensures next.definitions.Keys <= next.validAfter.Keys <==> NextStage(prev, d).Retired? || NoRoomToReturn(prev, d)
    ensures !NextStage(prev, d).Retired? && AllFit(prev, d) ==>
              (next.definitions.Keys <= next.validAfter.Keys <==> d.removed !! VotedIn(d.winners))
  {
    hide Encodable, VotedDefinitions, NextStage, BaseWatermarks, Stamp, Removals, VotedIn, NoRoomToReturn, AllFit,
      IsStep;
    UncoveredReturned(config, prev, d, next);
    if !NextStage(prev, d).Retired? {
      ReturnsIff(prev, d);
      if AllFit(prev, d) { ReturnsBelowCap(prev, d); }
    }
  }

  lemma UncoveredReturned(config: Config, prev: Outcome, d: Decision, next: Outcome)
    requires IsStep(config, prev, d, next)
    ensures next.definitions.Keys == VotedDefinitions(prev, d).Keys
    ensures next.definitions.Keys <= next.validAfter.Keys <==> Removals(prev, d) !! next.definitions.Keys
    ensures NextStage(prev, d).Retired? ==> Removals(prev, d) == {}
    ensures !NextStage(prev, d).Retired? ==> Removals(prev, d) == d.removed
  {
    hide Encodable, VotedDefinitions, NextStage, BaseWatermarks, Stamp, Appended;
    AppendedKeys(config, VotedDefinitions(prev, d), d.evaluated);
    var covered := BaseWatermarks(config, prev, d).Keys + next.definitions.Keys - Removals(prev, d);
    assert next.validAfter.Keys == covered;
    if next.definitions.Keys <= covered {
      forall c | c in Removals(prev, d) ensures c !in next.definitions {
        assert c !in covered;
      }
    }
  }

  lemma ReturnsIff(prev: Outcome, d: Decision)
    requires !NextStage(prev, d).Retired?
    ensures d.removed !! VotedDefinitions(prev, d).Keys <==> NoRoomToReturn(prev, d)
  {
    hide InstallAll, VotedIn;
    var defs := prev.definitions - d.removed;
    assert defs.Keys == prev.definitions.Keys - d.removed;
    if NoRoomToReturn(prev, d) {
      NoneReturns(defs, d.removed, d.winners);
    } else {
      var i :| 0 <= i < |d.winners| && d.winners[i].id in d.removed &&
          |defs.Keys + VotedIn(d.winners[..i])| < MAX_CHANNELS;
      OneReturns(defs, d.winners, i);
    }
  }

  lemma ReturnsBelowCap(prev: Outcome, d: Decision)
    requires !NextStage(prev, d).Retired? && AllFit(prev, d)
    ensures d.removed !! VotedDefinitions(prev, d).Keys <==> d.removed !! VotedIn(d.winners)
  {
    hide InstallAll, VotedIn;
    var defs := prev.definitions - d.removed;
    assert defs.Keys == prev.definitions.Keys - d.removed;
    InstalledKeys(defs, d.winners);
  }

  /** Appending calculated streams a second time changes nothing. */
  lemma WithCalculatedTwice(config: Config, cd: Definition)
    ensures WithCalculated(config, WithCalculated(config, cd)) == WithCalculated(config, cd)
  {
  }

  /** The same definitions, some of them with their calculated streams appended. */
  ghost predicate UpToCalculated(config: Config, defs: map<ChannelID, Definition>, later: map<ChannelID, Definition>) {
    && later.Keys == defs.Keys
    && forall c :: c in defs ==> later[c] == defs[c] || later[c] == WithCalculated(config, defs[c])
  }

  lemma AppendedUpTo(
    config: Config, defs: map<ChannelID, Definition>, later: map<ChannelID, Definition>, evaluated: set<ChannelID>)
    requires UpToCalculated(config, defs, later)
    ensures UpToCalculated(config, defs, Appended(config, later, evaluated))
  {
    hide WithCalculated;
    forall c | c in defs
      ensures Appended(config, later, evaluated)[c] == defs[c] ||
                Appended(config, later, evaluated)[c] == WithCalculated(config, defs[c])
    {
      WithCalculatedTwice(config, defs[c]);
    }
  }

  /** A retired instance stays as it is: watermarks no longer move, and definitions only
      get the calculated streams of what is still evaluated. */
  lemma RetiredStep(config: Config, prev: Outcome, d: Decision, next: Outcome)
    requires IsStep(config, prev, d, next) && prev.stage.Retired? && Stamped(config, prev)
    requires prev.definitions.Keys <= prev.validAfter.Keys
    ensures next.stage.Retired? && next.definitions == Appended(config, prev.definitions, d.evaluated)
    ensures next.validAfter == prev.validAfter
  {
    hide Encodable, NextRow, IntervalOk, Stamp, WithCalculated;
    var base := BaseWatermarks(config, prev, d);
    forall c | c in prev.validAfter ensures c in base && base[c] == prev.validAfter[c] {
    }
    assert base == prev.validAfter;
    assert base.Keys + prev.definitions.Keys - {} == base.Keys;
    assert NextWatermarks(config, prev, d) == prev.validAfter;
    assert Restamped(config, prev.validAfter) == prev.validAfter;
  }

  /** From the retirement round on the watermarks never change, so every later
      retirement report carries the same ones. */
  lemma {:induction false} RetirementFreezes(config: Config, states: seq<Outcome>, decisions: seq<Decision>, i: nat)
    requires IsRun(config, states, decisions) && 0 < i < |states| && states[i].stage.Retired?
    ensures var last := states[|states| - 1];
            && last.stage.Retired? && UpToCalculated(config, states[i].definitions, last.definitions)
            && last.validAfter == states[i].validAfter
            && GenRetirementReport(config, last) == GenRetirementReport(config, states[i])
            && Stamped(config, last) && last.definitions.Keys <= last.validAfter.Keys
    decreases |states|
  {
    hide IsStep, Stamped, Appended, WithCalculated;
    var n := |states| - 1;
    RunDrop(config, states, decisions);
    StepStamped(config, states[n - 1], decisions[n - 1], states[n]);
    if i < n {
      RetirementFreezes(config, states[..n], decisions[..n - 1], i);
      RetiredStep(config, states[n - 1], decisions[n - 1], states[n]);
      AppendedUpTo(config, states[i].definitions, states[n - 1].definitions, decisions[n - 1].evaluated);
    } else {
      RetiringCovers(config, states[n - 1], decisions[n - 1], states[n]);
    }
  }

  lemma RetiringCovers(config: Config, prev: Outcome, d: Decision, next: Outcome)
    requires IsStep(config, prev, d, next) && next.stage.Retired?
    ensures next.definitions.Keys <= next.validAfter.Keys
  {
    hide Encodable, VotedDefinitions, BaseWatermarks, Stamp, NextWatermarks;
    WatermarksCoverDefinitions(config, prev, d, next);
  }

  /** A promotion takes over the predecessor's watermarks of every channel that is not
      removed in the same round. */
  lemma PromotionInherits(config: Config, prev: Outcome, d: Decision, next: Outcome, c: ChannelID)
    requires IsStep(config, prev, d, next) && Inherits(prev, d)
    requires c in d.report.value.validAfter.value && c !in Removals(prev, d)
    ensures c in next.validAfter && next.validAfter[c] == Stamp(config, d.report.value.validAfter.value[c])
  {
    hide Encodable, VotedDefinitions, Stamp, Removals;
  }

  /** Gapless handover. The predecessor runs `ps` and is retired; the successor is
      promoted from its report into `ss[0]` and runs on. The channel's first interval
      of the successor starts exactly where the predecessor's last one ended. */
  lemma HandoverIsGapless(
    pred: Config, ps: seq<Outcome>, pd: seq<Decision>, succ: Config, before: Outcome, promotion: Decision,
    ss: seq<Outcome>, sd: seq<Decision>, c: ChannelID, pcd: Definition, scd: Definition)
    requires KeptThroughout(pred, ps, pd, c, pcd) && ps[|ps| - 1].stage.Retired?
    requires Promotes(before, promotion) && promotion.report == Some(GenRetirementReport(pred, ps[|ps| - 1]))
    requires ss != [] && IsStep(succ, before, promotion, ss[0]) && c !in Removals(before, promotion)
    requires c in ss[0].validAfter ==> KeptThroughout(succ, ss, sd, c, scd)
    ensures c in ss[0].validAfter
    ensures ss[0].validAfter[c] == Stamp(succ, EndOf(pred, Reports(pred, ps, c), ps[0].validAfter[c]))
    ensures Tiles(succ, Reports(succ, ss, c), Stamp(succ, EndOf(pred, Reports(pred, ps, c), ps[0].validAfter[c])))
  {
    hide IsStep, KeepsChannel, Stamp, Stamped;
    IntervalsTile(pred, ps, pd, c, pcd);
    var last := ps[|ps| - 1];
    RetiredReportsNothing(pred, last, c);
    assert Reports(pred, ps[..|ps| - 1], c) + [] == Reports(pred, ps[..|ps| - 1], c);
    assert GenRetirementReport(pred, last).validAfter == Some(last.validAfter);
    PromotionInherits(succ, before, promotion, ss[0], c);
    IntervalsTile(succ, ss, sd, c, scd);
  }

  lemma RetiredReportsNothing(config: Config, out: Outcome, c: ChannelID)
    requires out.stage.Retired?
    ensures !Reportable(config, out, c)
  {
  }

  /** With nanosecond watermarks on both sides, nothing is lost or repeated at all. */
  lemma HandoverIsExact(
    pred: Config, ps: seq<Outcome>, pd: seq<Decision>, succ: Config, before: Outcome, promotion: Decision,
    ss: seq<Outcome>, sd: seq<Decision>, c: ChannelID, pcd: Definition, scd: Definition)
    requires pred.version > 0 && succ.version > 0
    requires KeptThroughout(pred, ps, pd, c, pcd) && ps[|ps| - 1].stage.Retired?
    requires Promotes(before, promotion) && promotion.report == Some(GenRetirementReport(pred, ps[|ps| - 1]))
    requires ss != [] && IsStep(succ, before, promotion, ss[0]) && c !in Removals(before, promotion)
    requires c in ss[0].validAfter ==> KeptThroughout(succ, ss, sd, c, scd)
    ensures Reports(pred, ps, c) != [] && Reports(succ, ss, c) != [] ==>
              Reports(succ, ss, c)[0].start == Reports(pred, ps, c)[|Reports(pred, ps, c)| - 1].end
  {
    hide IsStep, KeepsChannel, Stamped, Reports;
    HandoverIsGapless(pred, ps, pd, succ, before, promotion, ss, sd, c, pcd, scd);
  }
}
