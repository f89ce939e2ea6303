/** Which backfill row is emitted next (llo/v30/codecs.go, llo/dev/v31/backfill.go). */
module Backfills {
  import opened Collections
  import opened Tallies
  import opened Outcomes
  import opened OutcomeRuns

  /** A selectable row and its timestamp. */
  datatype Candidate = Candidate(raw: nat, nanos: nat)

  lemma KeyOrder(a: nat, b: nat, tick: nat)
    requires KeyNanos(a, tick).Some? && KeyNanos(b, tick).Some?
    ensures a < b <==> KeyNanos(a, tick).value < KeyNanos(b, tick).value
  {
    assert tick > 0;
    if a < b { assert (b - a) * tick > 0; }
    if b < a { assert (a - b) * tick > 0; }
  }

  /** A raw key stands for its multiple of the tick, if that fits 64 bits. */
  lemma KeyNanosIff(raw: nat, tick: nat, nanos: nat)
    ensures KeyNanos(raw, tick) == Some(nanos) <==> tick > 0 && nanos == raw * tick < 0x1_0000_0000_0000_0000
  {
    if tick > 0 {
      var most := (TWO_64 - 1) / tick;
      if raw <= most { assert raw * tick <= most * tick; } else { assert raw * tick >= (most + 1) * tick; }
    }
  }

  lemma EarliestUnique(rows: set<nat>, tick: nat, after: nat, before: nat, a: nat, b: nat)
    requires Earliest(rows, tick, after, before, a) && Earliest(rows, tick, after, before, b)
    ensures a == b
  {
  }

  /** The best of the rows visited so far. */
  ghost predicate BestSoFar(rows: set<nat>, todo: set<nat>, tick: nat, after: nat, before: nat, best: Option<Candidate>)
  {
    match best
    case None => forall r :: r in rows - todo ==> !Selectable(rows, tick, after, before, r)
    case Some(b) =>
      && b.raw in rows - todo && Selectable(rows, tick, after, before, b.raw) && KeyNanos(b.raw, tick) == Some(b.nanos)
      && forall r :: r in rows - todo && Selectable(rows, tick, after, before, r) ==> b.raw <= r
  }

  /** Finds the earliest row after the watermark and before the round's time, visiting
      rows in whatever order the map yields. */
  method FindEarliest(rows: set<nat>, tick: nat, after: nat, before: nat) returns (best: Option<Candidate>)
    ensures best.None? ==> forall r :: !Selectable(rows, tick, after, before, r)
    ensures best.Some? ==>
              Earliest(rows, tick, after, before, best.value.raw) &&
              KeyNanos(best.value.raw, tick) == Some(best.value.nanos)
  {
    best := None;
    var todo := rows;
    while todo != {}
      invariant todo <= rows && BestSoFar(rows, todo, tick, after, before, best)
      decreases |todo|
    {
      var raw :| raw in todo;
      todo := todo - {raw};
      var nanos := KeyNanos(raw, tick);
      if nanos.None? || nanos.value >= before || nanos.value <= after {
        continue;
      }
      if best.Some? { KeyOrder(raw, best.value.raw, tick); }
      if best.None? || nanos.value < best.value.nanos || (nanos.value == best.value.nanos && raw < best.value.raw) {
        best := Some(Candidate(raw, nanos.value));
      }
    }
  }

  /** The row with the lowest key whose time lies strictly between the two, and fits 64
      bits; none if there is no such row. */
  ghost predicate IsNextRow(rows: set<nat>, tick: nat, after: nat, before: nat, r: Option<Candidate>) {
    match r
    case Some(next) =>
      && next.raw in rows && next.nanos == next.raw * tick && after < next.nanos < before && next.nanos < TWO_64
      && forall raw :: raw in rows && raw < next.raw ==> raw * tick <= after
    case None =>
      forall raw :: raw in rows ==> raw * tick <= after || raw * tick >= before || raw * tick >= TWO_64
  }

  lemma FoundIsNextRow(rows: set<nat>, tick: nat, after: nat, before: nat, r: Option<Candidate>)
    requires r.None? ==> forall raw :: !Selectable(rows, tick, after, before, raw)
    requires r.Some? ==>
               Earliest(rows, tick, after, before, r.value.raw) && KeyNanos(r.value.raw, tick) == Some(r.value.nanos)
    ensures IsNextRow(rows, tick, after, before, r)
  {
    hide KeyNanos;
    forall raw: nat { KeyNanosIff(raw, tick, raw * tick); }
    if r.Some? {
      KeyNanosIff(r.value.raw, tick, r.value.nanos);
      forall raw: nat | raw in rows && raw < r.value.raw ensures raw * tick <= after {
        assert (r.value.raw - raw) * tick >= 0;
        assert raw * tick <= r.value.nanos;
        KeyNanosIff(raw, tick, raw * tick);
        assert raw * tick > after ==> Selectable(rows, tick, after, before, raw);
      }
    } else if tick > 0 {
      forall raw: nat | raw in rows ensures raw * tick <= after || raw * tick >= before || raw * tick >= TWO_64 {
        KeyNanosIff(raw, tick, raw * tick);
        assert !Selectable(rows, tick, after, before, raw);
      }
    } else {
      forall raw | raw in rows ensures raw * tick == 0 {
      }
    }
  }

  /** The next row of a backfill channel, or none when the channel, its opts, its
      target or its watermark is missing, or nothing is left. */
  method SelectBackfillCandidate(config: Config, out: Outcome, c: ChannelID) returns (r: Option<Candidate>)
    ensures r.None? <==> NextRow(config, out, c).None?
    ensures r.Some? ==>
              && BackfillTick(config, out, c).Some? && NextRow(config, out, c) == Some(r.value.raw)
              && KeyNanos(r.value.raw, BackfillTick(config, out, c).value) == Some(r.value.nanos)
    ensures c in out.definitions && out.definitions[c].format == HistoryBackfill && c in out.validAfter
         && config.backfillOpts(out.definitions[c]).Some?
         && config.backfillOpts(out.definitions[c]).value.target in out.definitions
         && config.resolutionNanos(out.definitions[config.backfillOpts(out.definitions[c]).value.target]).Some?
        ==> var opts := config.backfillOpts(out.definitions[c]).value;
            IsNextRow(opts.rows, config.resolutionNanos(out.definitions[opts.target]).value, out.validAfter[c],
                      out.observedAt, r)
  {
    hide Earliest, Selectable, KeyNanos, IsNextRow;
    var tick := BackfillTick(config, out, c);
    if tick.None? {
      return None;
    }
    var rows := config.backfillOpts(out.definitions[c]).value.rows;
    r := FindEarliest(rows, tick.value, out.validAfter[c], out.observedAt);
    NextRowIs(config, out, c, r);
    FoundIsNextRow(rows, tick.value, out.validAfter[c], out.observedAt, r);
  }

  /** A backfill is reported in production only, while it is live, has opts, a watermark and
      a target whose keys resolve, and a row of it lies between watermark and round. */
  predicate BackfillDue(config: Config, out: Outcome, c: ChannelID)
    requires c in out.definitions
  {
    && out.stage == Production && !out.definitions[c].tombstone && c in out.validAfter
    && var opts := config.backfillOpts(out.definitions[c]);
       && opts.Some? && opts.value.target in out.definitions
       && var tick := config.resolutionNanos(out.definitions[opts.value.target]);
          && tick.Some?
          && exists raw :: raw in opts.value.rows
               && out.validAfter[c] < raw * tick.value < out.observedAt && raw * tick.value < TWO_64
  }

  lemma BackfillReportableIff(config: Config, out: Outcome, c: ChannelID)
    requires c in out.definitions && out.definitions[c].format == HistoryBackfill
    ensures Reportable(config, out, c) <==> BackfillDue(config, out, c)
  {
    hide KeyNanos;
    if BackfillTick(config, out, c).Some? {
      var opts := config.backfillOpts(out.definitions[c]).value;
      SomeRowIff(opts.rows, BackfillTick(config, out, c).value, out.validAfter[c], out.observedAt);
    }
  }

  lemma SelectableIff(rows: set<nat>, tick: nat, after: nat, before: nat, raw: nat)
    ensures Selectable(rows, tick, after, before, raw) <==>
            raw in rows && after < raw * tick < before && raw * tick < TWO_64
  {
    hide KeyNanos;
    KeyNanosIff(raw, tick, raw * tick);
    if KeyNanos(raw, tick).Some? { KeyNanosIff(raw, tick, KeyNanos(raw, tick).value); }
  }

  lemma SomeRowIff(rows: set<nat>, tick: nat, after: nat, before: nat)
    ensures (exists raw :: Earliest(rows, tick, after, before, raw)) <==>
            exists raw :: raw in rows && after < raw * tick < before && raw * tick < TWO_64
  {
    hide Selectable;
    forall raw: nat { SelectableIff(rows, tick, after, before, raw); }
    var selectable := set r | r in rows && Selectable(rows, tick, after, before, r);
    if selectable != {} {
      var least := LeastOf(selectable);
      forall r: nat | Selectable(rows, tick, after, before, r) ensures least <= r {
        assert r in selectable;
      }
      assert Earliest(rows, tick, after, before, least);
      assert Selectable(rows, tick, after, before, least);
    } else {
      forall raw: nat ensures !Selectable(rows, tick, after, before, raw) {
        assert raw !in selectable;
      }
    }
  }

  lemma NextRowIs(config: Config, out: Outcome, c: ChannelID, r: Option<Candidate>)
    requires BackfillTick(config, out, c).Some?
    requires var rows, tick := config.backfillOpts(out.definitions[c]).value.rows, BackfillTick(config, out, c).value;
             && (r.None? ==> forall k :: !Selectable(rows, tick, out.validAfter[c], out.observedAt, k))
             && (r.Some? ==> Earliest(rows, tick, out.validAfter[c], out.observedAt, r.value.raw))
    ensures NextRow(config, out, c) == if r.Some? then Some(r.value.raw) else None
  {
    var rows, tick := config.backfillOpts(out.definitions[c]).value.rows, BackfillTick(config, out, c).value;
    if r.Some? {
      var next := NextRow(config, out, c);
      assert next.Some?;
      EarliestUnique(rows, tick, out.validAfter[c], out.observedAt, next.value, r.value.raw);
    }
  }

  // --------------------------------------------------------------- whole runs

  /** A backfill channel in production whose own and target definitions stay fixed. */
  ghost predicate Backfilling(config: Config, out: Outcome, c: ChannelID, rows: set<nat>, tick: nat) {
    && out.stage.Production? && c in out.definitions && !out.definitions[c].tombstone
    && BackfillTick(config, out, c) == Some(tick)
    && config.backfillOpts(out.definitions[c]).value.rows == rows
  }

  ghost predicate KeepsBackfilling(config: Config, prev: Outcome, d: Decision, c: ChannelID, rows: set<nat>, tick: nat)
  {
    && Backfilling(config, prev, c, rows, tick) && Backfilling(config, Seen(prev, d), c, rows, tick)
    && c !in Removals(prev, d) && !Inherits(prev, d)
  }

  /** The codec keeps the row's time: the version stores nanoseconds, or it is a whole second. */
  predicate WholeRow(config: Config, tick: nat, raw: nat) {
    config.version > 0 || (KeyNanos(raw, tick).Some? ==> KeyNanos(raw, tick).value % SECOND == 0)
  }

  predicate Storable(config: Config, rows: set<nat>, tick: nat) { forall r :: r in rows ==> WholeRow(config, tick, r) }

  lemma WholeRowIff(config: Config, tick: nat, raw: nat)
    requires KeyNanos(raw, tick).Some?
    ensures WholeRow(config, tick, raw) <==> Stamp(config, KeyNanos(raw, tick).value) == KeyNanos(raw, tick).value
    ensures Stamp(config, KeyNanos(raw, tick).value) <= KeyNanos(raw, tick).value
  {
    hide KeyNanos;
  }

  lemma BackfillStep(config: Config, prev: Outcome, d: Decision, next: Outcome, c: ChannelID, rows: set<nat>, tick: nat)
    requires IsStep(config, prev, d, next) && Stamped(config, prev) && KeepsBackfilling(config, prev, d, c, rows, tick)
    ensures c in prev.validAfter && c in next.validAfter
    ensures NextRow(config, Seen(prev, d), c) == NextRow(config, prev, c)
    ensures next.validAfter[c] == if NextRow(config, prev, c).Some? &&
              KeyNanos(NextRow(config, prev, c).value, tick).Some?
                                  then Stamp(config, KeyNanos(NextRow(config, prev, c).value, tick).value)
                                      else prev.validAfter[c]
  {
    hide Encodable, VotedDefinitions, NextStage, Stamp, KeyNanos, Earliest, Removals;
    SameNextRow(config, prev, Seen(prev, d), c, rows, tick);
    if NextRow(config, prev, c).Some? { NextRowSelectable(config, prev, c, rows, tick); }
  }

  lemma NextRowSelectable(config: Config, out: Outcome, c: ChannelID, rows: set<nat>, tick: nat)
    requires Backfilling(config, out, c, rows, tick) && NextRow(config, out, c).Some?
    ensures Earliest(rows, tick, out.validAfter[c], out.observedAt, NextRow(config, out, c).value)
    ensures KeyNanos(NextRow(config, out, c).value, tick).Some?
  {
  }

  lemma SameNextRow(config: Config, a: Outcome, b: Outcome, c: ChannelID, rows: set<nat>, tick: nat)
    requires Backfilling(config, a, c, rows, tick) && Backfilling(config, b, c, rows, tick)
    requires a.validAfter == b.validAfter && a.observedAt == b.observedAt
    ensures NextRow(config, a, c) == NextRow(config, b, c)
  {
    hide KeyNanos;
    if NextRow(config, a, c).Some? && NextRow(config, b, c).Some? {
      NextRowSelectable(config, a, c, rows, tick);
      NextRowSelectable(config, b, c, rows, tick);
      EarliestUnique(rows, tick, a.validAfter[c], a.observedAt, NextRow(config, a, c).value,
          NextRow(config, b, c).value);
    }
  }

  ghost predicate BackfillRun(
    config: Config, states: seq<Outcome>, decisions: seq<Decision>, c: ChannelID, rows: set<nat>, tick: nat)
  {
    && IsRun(config, states, decisions) && Stamped(config, states[0])
    && (forall i :: 0 <= i < |states| ==> Backfilling(config, states[i], c, rows, tick))
    && (forall i :: 0 <= i < |decisions| ==> KeepsBackfilling(config, states[i], decisions[i], c, rows, tick))
  }

  /** The rows emitted over a sequence of outcomes, in order. */
  ghost function Emitted(config: Config, states: seq<Outcome>, c: ChannelID): seq<nat> {
    if states == [] then []
    else
      var next := NextRow(config, states[|states| - 1], c);
      Emitted(config, states[..|states| - 1], c) + if next.Some? then [next.value] else []
  }

  predicate Increasing(s: seq<nat>) { forall i, j :: 0 <= i < j < |s| ==> s[i] < s[j] }

  /** Rows up to `upto` that lie after `start` have all been emitted, and nothing else. */
  ghost predicate EmittedExactly(rows: set<nat>, tick: nat, start: nat, upto: nat, emitted: seq<nat>) {
    && Increasing(emitted)
    && forall r: nat :: r in emitted <==>
        r in rows && KeyNanos(r, tick).Some? && start < KeyNanos(r, tick).value <= upto
  }

  lemma EmitOne(rows: set<nat>, tick: nat, start: nat, after: nat, before: nat, emitted: seq<nat>, raw: nat)
    requires EmittedExactly(rows, tick, start, after, emitted) && start <= after
    requires Earliest(rows, tick, after, before, raw)
    ensures EmittedExactly(rows, tick, start, KeyNanos(raw, tick).value, emitted + [raw])
  {
    var upto := KeyNanos(raw, tick).value;
    forall r: nat | KeyNanos(r, tick).Some? ensures r < raw <==> KeyNanos(r, tick).value < upto {
      KeyOrder(r, raw, tick);
    }
    forall r: nat | r in rows && KeyNanos(r, tick).Some? && after < KeyNanos(r, tick).value <= upto ensures r == raw {
      KeyOrder(raw, r, tick);
      if KeyNanos(r, tick).value < upto { assert Selectable(rows, tick, after, before, r); }
    }
    forall r: nat | r in emitted ensures r < raw {
      assert KeyNanos(r, tick).Some? && KeyNanos(r, tick).value <= after;
    }
    forall i, j | 0 <= i < j < |emitted + [raw]| ensures (emitted + [raw])[i] < (emitted + [raw])[j] {
      assert emitted[i] in emitted;
    }
    forall r: nat
      ensures r in emitted + [raw] <==> r in rows && KeyNanos(r, tick).Some? && start < KeyNanos(r, tick).value <= upto
    {
      if r in rows && KeyNanos(r, tick).Some? && start < KeyNanos(r, tick).value <= upto && r != raw {
        assert KeyNanos(r, tick).value <= after;
      }
    }
  }

  /** Over every run that emits no row between two seconds, the emitted rows are strictly
      increasing, pass over no row above the starting watermark, and repeat none. */
  lemma {:induction false} WholeRowsAreExact(
    config: Config, states: seq<Outcome>, decisions: seq<Decision>, c: ChannelID, rows: set<nat>, tick: nat)
    requires BackfillRun(config, states, decisions, c, rows, tick)
    requires forall r :: r in Emitted(config, states[..|states| - 1], c) ==> WholeRow(config, tick, r)
    ensures var last := states[|states| - 1];
            && Stamped(config, last) && states[0].validAfter[c] <= last.validAfter[c]
            && EmittedExactly(rows, tick, states[0].validAfter[c], last.validAfter[c],
                Emitted(config, states[..|states| - 1], c))
    decreases |states|
  {
    hide IsStep, KeepsBackfilling, NextRow, KeyNanos, Stamp, WholeRow, EmittedExactly, Stamped;
    var n := |states| - 1;
    if decisions == [] {
      assert states[..0] == [];
      NothingEmitted(rows, tick, states[0].validAfter[c]);
    } else {
      BackfillDrop(config, states, decisions, c, rows, tick);
      assert states[..n][..n - 1] == states[..n - 1];
      WholeRowsAreExact(config, states[..n], decisions[..n - 1], c, rows, tick);
      var prev := states[n - 1];
      BackfillStep(config, prev, decisions[n - 1], states[n], c, rows, tick);
      StepStamped(config, prev, decisions[n - 1], states[n]);
      var next := NextRow(config, prev, c);
      if next.Some? {
        NextRowSelectable(config, prev, c, rows, tick);
        WholeRowIff(config, tick, next.value);
        EmitOne(rows, tick, states[0].validAfter[c], prev.validAfter[c], prev.observedAt,
            Emitted(config, states[..n - 1], c), next.value);
      } else {
        assert Emitted(config, states[..n - 1], c) + [] == Emitted(config, states[..n - 1], c);
      }
    }
  }

  lemma {:induction false} EmittedFrom(config: Config, states: seq<Outcome>, c: ChannelID, r: nat)
    requires r in Emitted(config, states, c)
    ensures exists i :: 0 <= i < |states| && NextRow(config, states[i], c) == Some(r)
    decreases |states|
  {
    hide NextRow;
    var n := |states| - 1;
    if r in Emitted(config, states[..n], c) {
      EmittedFrom(config, states[..n], c, r);
      var i :| 0 <= i < n && NextRow(config, states[..n][i], c) == Some(r);
      assert NextRow(config, states[i], c) == Some(r);
    } else {
      assert NextRow(config, states[n], c) == Some(r);
    }
  }

  lemma EmittedRow(
    config: Config, states: seq<Outcome>, decisions: seq<Decision>, c: ChannelID, rows: set<nat>, tick: nat, r: nat)
    returns (i: nat)
    requires BackfillRun(config, states, decisions, c, rows, tick) && r in Emitted(config, states[..|states| - 1], c)
    ensures i < |states| - 1 && NextRow(config, states[i], c) == Some(r) && r in rows && KeyNanos(r, tick).Some?
  {
    hide NextRow, KeyNanos, IsStep, KeepsBackfilling, Backfilling;
    EmittedFrom(config, states[..|states| - 1], c, r);
    i :| 0 <= i < |states| - 1 && NextRow(config, states[..|states| - 1][i], c) == Some(r);
    NextRowSelectable(config, states[i], c, rows, tick);
  }

  /** Over every run the emitted rows are strictly increasing, pass over no row above
      the starting watermark, and repeat none, if the codec keeps the time of every row. */
  lemma BackfillIsExact(
    config: Config, states: seq<Outcome>, decisions: seq<Decision>, c: ChannelID, rows: set<nat>, tick: nat)
    requires BackfillRun(config, states, decisions, c, rows, tick) && Storable(config, rows, tick)
    ensures var last := states[|states| - 1];
            && Stamped(config, last) && states[0].validAfter[c] <= last.validAfter[c]
            && EmittedExactly(rows, tick, states[0].validAfter[c], last.validAfter[c],
                Emitted(config, states[..|states| - 1], c))
  {
    hide IsStep, KeepsBackfilling, Emitted, KeyNanos, WholeRow, EmittedExactly, Stamped;
    forall r | r in Emitted(config, states[..|states| - 1], c) ensures WholeRow(config, tick, r) {
      var _ := EmittedRow(config, states, decisions, c, rows, tick, r);
    }
    WholeRowsAreExact(config, states, decisions, c, rows, tick);
  }

  /** Once a row between two seconds is selected under version 0 the backfill is stuck:
      every later round selects that row again, or nothing while the time is before it. */
  lemma {:induction false} StuckRow(
    config: Config, states: seq<Outcome>, decisions: seq<Decision>, c: ChannelID, rows: set<nat>, tick: nat, i: nat,
    j: nat, raw: nat)
    requires BackfillRun(config, states, decisions, c, rows, tick) && i <= j < |states| && Stamped(config, states[i])
    requires NextRow(config, states[i], c) == Some(raw) && !WholeRow(config, tick, raw)
    ensures KeyNanos(raw, tick).Some?
    ensures NextRow(config, states[j], c) == if KeyNanos(raw, tick).value < states[j].observedAt then Some(raw)
              else None
    ensures Stamped(config, states[j]) &&
              (i < j ==> states[j].validAfter[c] == Stamp(config, KeyNanos(raw, tick).value))
    decreases j
  {
    hide IsStep, KeepsBackfilling, NextRow, KeyNanos, Stamp, WholeRow, Stamped, Earliest;
    NextRowSelectable(config, states[i], c, rows, tick);
    RowBefore(rows, tick, states[i].validAfter[c], states[i].observedAt, raw);
    if i < j {
      StuckRow(config, states, decisions, c, rows, tick, i, j - 1, raw);
      assert IsStep(config, states[j - 1], decisions[j - 1], states[j]) &&
          KeepsBackfilling(config, states[j - 1], decisions[j - 1], c, rows, tick);
      BackfillStep(config, states[j - 1], decisions[j - 1], states[j], c, rows, tick);
      StepStamped(config, states[j - 1], decisions[j - 1], states[j]);
      Reselected(config, states[i], states[j], c, rows, tick, raw);
    }
  }

  lemma RowBefore(rows: set<nat>, tick: nat, after: nat, before: nat, raw: nat)
    requires Earliest(rows, tick, after, before, raw)
    ensures KeyNanos(raw, tick).Some? && after < KeyNanos(raw, tick).value < before
  {
  }

  /** From the second the row lies in, the row itself is the earliest one left. */
  lemma Reselected(config: Config, first: Outcome, now: Outcome, c: ChannelID, rows: set<nat>, tick: nat, raw: nat)
    requires Backfilling(config, first, c, rows, tick) && Backfilling(config, now, c, rows, tick)
    requires Stamped(config, first) && !WholeRow(config, tick, raw)
    requires Earliest(rows, tick, first.validAfter[c], first.observedAt, raw)
    requires now.validAfter[c] == Stamp(config, KeyNanos(raw, tick).value)
    ensures NextRow(config, now, c) == if KeyNanos(raw, tick).value < now.observedAt then Some(raw) else None
  {
    hide NextRow, KeyNanos;
    var nanos := KeyNanos(raw, tick).value;
    assert first.validAfter[c] / SECOND * SECOND == first.validAfter[c];
    assert first.validAfter[c] <= now.validAfter[c] < nanos;
    if nanos < now.observedAt {
      StillEarliest(rows, tick, first.validAfter[c], first.observedAt, now.validAfter[c], now.observedAt, raw);
      NextRowIs(config, now, c, Some(Candidate(raw, nanos)));
    } else {
      NothingEarlier(rows, tick, first.validAfter[c], first.observedAt, now.validAfter[c], now.observedAt, raw);
      NextRowIs(config, now, c, None);
    }
  }

  lemma NothingEarlier(rows: set<nat>, tick: nat, after: nat, before: nat, later: nat, now: nat, raw: nat)
    requires Earliest(rows, tick, after, before, raw) && after <= later && now <= KeyNanos(raw, tick).value
    ensures forall r :: !Selectable(rows, tick, later, now, r)
  {
    hide KeyNanos;
    forall r | r in rows ensures !Selectable(rows, tick, later, now, r) {
      if KeyNanos(r, tick).Some? { KeyOrder(r, raw, tick); }
      assert Selectable(rows, tick, later, now, r) ==> r < raw && Selectable(rows, tick, after, before, r);
    }
  }

  /** A run backfills exactly if and only if it emits no row whose time the codec cuts. */
  lemma BackfillExactIff(
    config: Config, states: seq<Outcome>, decisions: seq<Decision>, c: ChannelID, rows: set<nat>, tick: nat)
    requires BackfillRun(config, states, decisions, c, rows, tick)
    ensures EmittedExactly(rows, tick, states[0].validAfter[c], states[|states| - 1].validAfter[c],
              Emitted(config, states[..|states| - 1], c))
       <==> forall r :: r in Emitted(config, states[..|states| - 1], c) ==> WholeRow(config, tick, r)
  {
    hide IsStep, KeepsBackfilling, Emitted, KeyNanos, WholeRow, Stamped, Stamp;
    var emitted := Emitted(config, states[..|states| - 1], c);
    if forall r :: r in emitted ==> WholeRow(config, tick, r) {
      WholeRowsAreExact(config, states, decisions, c, rows, tick);
    } else {
      var r :| r in emitted && !WholeRow(config, tick, r);
      var i := EmittedRow(config, states, decisions, c, rows, tick, r);
      StampedThroughout(config, states, decisions, i);
      StuckRow(config, states, decisions, c, rows, tick, i, |states| - 1, r);
      WholeRowIff(config, tick, r);
    }
  }

  lemma StampedThroughout(config: Config, states: seq<Outcome>, decisions: seq<Decision>, i: nat)
    requires IsRun(config, states, decisions) && Stamped(config, states[0]) && i < |states|
    ensures Stamped(config, states[i])
  {
    hide IsStep, Stamped;
    if i > 0 { StepStamped(config, states[i - 1], decisions[i - 1], states[i]); }
  }

  lemma NothingEmitted(rows: set<nat>, tick: nat, start: nat)
    ensures EmittedExactly(rows, tick, start, start, [])
  {
  }

  lemma BackfillDrop(
    config: Config, states: seq<Outcome>, decisions: seq<Decision>, c: ChannelID, rows: set<nat>, tick: nat)
    requires BackfillRun(config, states, decisions, c, rows, tick) && decisions != []
    ensures BackfillRun(config, states[..|states| - 1], decisions[..|decisions| - 1], c, rows, tick)
    ensures IsStep(config, states[|states| - 2], decisions[|decisions| - 1], states[|states| - 1])
    ensures KeepsBackfilling(config, states[|states| - 2], decisions[|decisions| - 1], c, rows, tick)
  {
    hide IsStep, KeepsBackfilling, Backfilling, Stamped;
  }

  lemma {:induction false} IncreasingSize(s: seq<nat>, rows: set<nat>)
    requires Increasing(s) && forall r :: r in s ==> r in rows
    ensures |s| <= |rows|
    decreases |s|
  {
    if s != [] {
      var n := |s| - 1;
      assert s[n] in s;
      IncreasingSize(s[..n], rows - {s[n]});
    }
  }

  /** A backfill stops: no run emits more rows than there are. */
  lemma BackfillStops(
    config: Config, states: seq<Outcome>, decisions: seq<Decision>, c: ChannelID, rows: set<nat>, tick: nat)
    requires BackfillRun(config, states, decisions, c, rows, tick) && Storable(config, rows, tick)
    ensures |Emitted(config, states[..|states| - 1], c)| <= |rows|
  {
    hide IsStep, KeepsBackfilling, NextRow, KeyNanos, Stamp, Storable;
    BackfillIsExact(config, states, decisions, c, rows, tick);
    IncreasingSize(Emitted(config, states[..|states| - 1], c), rows);
  }

  /** Version 0 stores the watermark in whole seconds, so a row between two seconds is
      selected again in the next round, and only such a row is. */
  lemma BackfillRepeatsIff(
    config: Config, prev: Outcome, d: Decision, next: Outcome, c: ChannelID, rows: set<nat>, tick: nat)
    requires IsStep(config, prev, d, next) && Stamped(config, prev) && KeepsBackfilling(config, prev, d, c, rows, tick)
    requires Backfilling(config, next, c, rows, tick) && NextRow(config, prev, c).Some?
    requires KeyNanos(NextRow(config, prev, c).value, tick).Some?
    requires KeyNanos(NextRow(config, prev, c).value, tick).value < next.observedAt
    ensures NextRow(config, next, c) == NextRow(config, prev, c)
       <==> config.version == 0 && KeyNanos(NextRow(config, prev, c).value, tick).value % SECOND != 0
  {
    hide IsStep, NextRow, KeyNanos, Seen;
    BackfillStep(config, prev, d, next, c, rows, tick);
    NextRowSelectable(config, prev, c, rows, tick);
    var raw := NextRow(config, prev, c).value;
    if config.version == 0 && KeyNanos(raw, tick).value % SECOND != 0 {
      StillEarliest(rows, tick, prev.validAfter[c], prev.observedAt, next.validAfter[c], next.observedAt, raw);
      NextRowIs(config, next, c, Some(Candidate(raw, KeyNanos(raw, tick).value)));
    } else if NextRow(config, next, c).Some? {
      NextRowSelectable(config, next, c, rows, tick);
    }
  }

  lemma StillEarliest(rows: set<nat>, tick: nat, after: nat, before: nat, later: nat, now: nat, raw: nat)
    requires Earliest(rows, tick, after, before, raw)
    requires after <= later < KeyNanos(raw, tick).value < now
    ensures Earliest(rows, tick, later, now, raw)
  {
    forall r: nat | Selectable(rows, tick, later, now, r) ensures raw <= r {
      KeyOrder(r, raw, tick);
      if r < raw { assert Selectable(rows, tick, after, before, r); }
    }
  }

  // ------------------------------------------------------- emittable rows (v31)

  predicate CandidateLeq(a: Candidate, b: Candidate) { a.nanos < b.nanos || (a.nanos == b.nanos && a.raw <= b.raw) }

  ghost predicate IsCandidate(rows: set<nat>, tick: nat, after: nat, before: nat, c: Candidate) {
    Selectable(rows, tick, after, before, c.raw) && KeyNanos(c.raw, tick) == Some(c.nanos)
  }

  /** Collects every selectable row, in whatever order the map yields. */
  method CollectCandidates(rows: set<nat>, tick: nat, after: nat, before: nat) returns (found: seq<Candidate>)
    ensures NoDuplicates(found)
    ensures forall c :: c in found <==> IsCandidate(rows, tick, after, before, c)
  {
    hide KeyNanos;
    found := [];
    var todo := rows;
    while todo != {}
      invariant todo <= rows && NoDuplicates(found)
      invariant forall c :: c in found <==> c.raw !in todo && IsCandidate(rows, tick, after, before, c)
      decreases |todo|
    {
      var raw :| raw in todo;
      var nanos := KeyNanos(raw, tick);
      if nanos.Some? && after < nanos.value < before {
        found := found + [Candidate(raw, nanos.value)];
      }
      todo := todo - {raw};
    }
  }

  /** The rows before `limit` that can be selected but not emitted. */
  ghost function Unemittable(
    rows: set<nat>, tick: nat, after: nat, before: nat, emittable: nat -> bool, limit: Option<nat>): set<nat>
  {
    set r | r in rows && Selectable(rows, tick, after, before, r) && !emittable(r) && (limit.Some? ==> r < limit.value)
  }

  ghost predicate SortedCandidates(rows: set<nat>, tick: nat, after: nat, before: nat, sorted: seq<Candidate>) {
    && SortedBy(sorted, CandidateLeq) && NoDuplicates(sorted)
    && forall c :: c in sorted <==> IsCandidate(rows, tick, after, before, c)
  }

  method SortCandidates(rows: set<nat>, tick: nat, after: nat, before: nat) returns (sorted: seq<Candidate>)
    ensures SortedCandidates(rows, tick, after, before, sorted)
  {
    hide KeyNanos;
    var found := CollectCandidates(rows, tick, after, before);
    sorted := Sort(found, CandidateLeq);
    SameElements(found, sorted);
    PermutationKeepsNoDuplicates(found, sorted);
  }

  /** The rows at the first `i` positions, none of which can be emitted. */
  ghost predicate Passed(sorted: seq<Candidate>, i: nat, emittable: nat -> bool, passed: set<nat>) {
    && i <= |sorted|
    && (forall r: nat :: r in passed <==> exists j :: 0 <= j < i && sorted[j].raw == r)
    && (forall j :: 0 <= j < i ==> !emittable(sorted[j].raw))
  }

  lemma PassOne(sorted: seq<Candidate>, i: nat, emittable: nat -> bool, passed: set<nat>)
    requires Passed(sorted, i, emittable, passed) && i < |sorted| && !emittable(sorted[i].raw)
    ensures Passed(sorted, i + 1, emittable, passed + {sorted[i].raw})
  {
  }

  lemma PassNone(sorted: seq<Candidate>, emittable: nat -> bool)
    ensures Passed(sorted, 0, emittable, {})
  {
  }

  /** The earliest row that can be emitted, if any, and how many earlier ones cannot. */
  ghost predicate IsNextEmittable(
    rows: set<nat>, tick: nat, after: nat, before: nat, emittable: nat -> bool, best: Option<Candidate>, skipped: nat)
  {
    && (best.Some? ==>
          && IsCandidate(rows, tick, after, before, best.value) && emittable(best.value.raw)
          && forall r :: Selectable(rows, tick, after, before, r) && emittable(r) ==> best.value.raw <= r)
    && (best.None? ==> forall r :: Selectable(rows, tick, after, before, r) ==> !emittable(r))
    && skipped == |Unemittable(rows, tick, after, before, emittable, if best.Some? then Some(best.value.raw) else None)|
  }

  /** The earliest row that can be emitted, with the number of rows passed over. */
  method SelectEmittable(rows: set<nat>, tick: nat, after: nat, before: nat, emittable: nat -> bool)
    returns (best: Option<Candidate>, skipped: nat)
    ensures IsNextEmittable(rows, tick, after, before, emittable, best, skipped)
  {
    hide KeyNanos, SortedCandidates, Passed, Selectable, Unemittable, IsCandidate;
    var sorted := SortCandidates(rows, tick, after, before);
    skipped := 0;
    ghost var passed: set<nat> := {};
    PassNone(sorted, emittable);
    for i := 0 to |sorted|
      invariant skipped == |passed| && Passed(sorted, i, emittable, passed)
    {
      NotPassed(rows, tick, after, before, sorted, i, emittable, passed);
      if emittable(sorted[i].raw) {
        best := Some(sorted[i]);
        PassedOver(rows, tick, after, before, emittable, sorted, i, passed);
        return;
      }
      PassOne(sorted, i, emittable, passed);
      passed := passed + {sorted[i].raw};
      skipped := skipped + 1;
    }
    best := None;
    PassedOver(rows, tick, after, before, emittable, sorted, |sorted|, passed);
  }

  /** A backfill channel with options names a target that is no tombstone, whose ticks and
      report times resolve, and has a watermark. */
  predicate HasLiveTarget(config: Config, out: Outcome, c: ChannelID, resolvable: Definition -> bool) {
    && c in out.definitions && out.definitions[c].format.HistoryBackfill? && c in out.validAfter
    && config.backfillOpts(out.definitions[c]).Some?
    && var t := config.backfillOpts(out.definitions[c]).value.target;
       && t in out.definitions && !out.definitions[t].tombstone
       && config.resolutionNanos(out.definitions[t]).Some? && resolvable(out.definitions[t])
  }

  /** The OCR3.1 selection. Whether a row can be emitted is a function of the target
      definition and the row. */
  method SelectEmittableCandidate(
    config: Config, out: Outcome, c: ChannelID, resolvable: Definition -> bool, emittable: (Definition, nat) -> bool)
    returns (best: Option<Candidate>, skipped: nat)
    ensures !HasLiveTarget(config, out, c, resolvable) ==> best.None? && skipped == 0
    ensures HasLiveTarget(config, out, c, resolvable) ==>
              var opts := config.backfillOpts(out.definitions[c]).value;
              var target := out.definitions[opts.target];
              IsNextEmittable(opts.rows, config.resolutionNanos(target).value, out.validAfter[c], out.observedAt,
                              EmittableAt(emittable, target), best, skipped)
  {
    hide IsNextEmittable;
    if c !in out.definitions || !out.definitions[c].format.HistoryBackfill? {
      return None, 0;
    }
    var opts := config.backfillOpts(out.definitions[c]);
    if opts.None? || opts.value.target !in out.definitions || out.definitions[opts.value.target].tombstone {
      return None, 0;
    }
    var target := out.definitions[opts.value.target];
    var tick := config.resolutionNanos(target);
    if tick.None? || !resolvable(target) || c !in out.validAfter {
      return None, 0;
    }
    best, skipped := SelectEmittable(opts.value.rows, tick.value, out.validAfter[c], out.observedAt,
        EmittableAt(emittable, target));
  }

  function EmittableAt(emittable: (Definition, nat) -> bool, target: Definition): nat -> bool {
    (raw: nat) => emittable(target, raw)
  }

  lemma RawAscends(rows: set<nat>, tick: nat, after: nat, before: nat, sorted: seq<Candidate>, i: nat, j: nat)
    requires SortedCandidates(rows, tick, after, before, sorted) && i < j < |sorted|
    ensures sorted[i].raw < sorted[j].raw
  {
    assert sorted[i] in sorted && sorted[j] in sorted;
    KeyOrder(sorted[i].raw, sorted[j].raw, tick);
    KeyOrder(sorted[j].raw, sorted[i].raw, tick);
  }

  lemma NotPassed(
    rows: set<nat>, tick: nat, after: nat, before: nat, sorted: seq<Candidate>, i: nat, emittable: nat -> bool,
    passed: set<nat>)
    requires SortedCandidates(rows, tick, after, before, sorted) && i < |sorted| && Passed(sorted, i, emittable, passed)
    ensures sorted[i].raw !in passed && IsCandidate(rows, tick, after, before, sorted[i])
  {
    forall j | 0 <= j < i ensures sorted[j].raw != sorted[i].raw {
      RawAscends(rows, tick, after, before, sorted, j, i);
    }
    assert sorted[i] in sorted;
  }

  lemma PassedOver(
    rows: set<nat>, tick: nat, after: nat, before: nat, emittable: nat -> bool, sorted: seq<Candidate>, i: nat,
    passed: set<nat>)
    requires SortedCandidates(rows, tick, after, before, sorted) && i <= |sorted|
    requires Passed(sorted, i, emittable, passed)
    requires i < |sorted| ==> emittable(sorted[i].raw)
    ensures passed == Unemittable(rows, tick, after, before, emittable, if i < |sorted| then Some(sorted[i].raw)
              else None)
    ensures forall r: nat :: Selectable(rows, tick, after, before, r) && emittable(r) ==>
              i < |sorted| && sorted[i].raw <= r
  {
    hide KeyNanos;
    forall r: nat | Selectable(rows, tick, after, before, r)
      ensures exists j :: 0 <= j < |sorted| && sorted[j].raw == r && (j < i <==> r in passed) &&
                (i < |sorted| ==> (j < i <==> r < sorted[i].raw))
    {
      assert IsCandidate(rows, tick, after, before, Candidate(r, KeyNanos(r, tick).value));
      var j :| 0 <= j < |sorted| && sorted[j] == Candidate(r, KeyNanos(r, tick).value);
      forall k | 0 <= k < |sorted| && k != j ensures sorted[k].raw != r {
        if k < j {
          RawAscends(rows, tick, after, before, sorted, k, j);
        } else {
          RawAscends(rows, tick, after, before, sorted, j, k);
        }
      }
      if i < |sorted| {
        if j < i { RawAscends(rows, tick, after, before, sorted, j, i); }
        if i < j { RawAscends(rows, tick, after, before, sorted, i, j); }
      }
    }
    forall r | r in passed ensures Selectable(rows, tick, after, before, r) {
      var j :| 0 <= j < i && sorted[j].raw == r;
      assert sorted[j] in sorted;
    }
  }
}
