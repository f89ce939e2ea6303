/** The path on which the committed channels approach the desired ones, when rounds along
    it are possible, and whether it ends there (llo/v30/plugin_observation.go,
    llo/v30/plugin.go, llo/protocol/calculated/calculated.go). */
module ConvergenceRuns {
  import opened Collections
  import opened Medians
  import opened Tallies
  import opened Outcomes
  import opened OutcomeRuns
  import opened Votes
  import opened OutcomeRounds
  import opened Validations
  import opened Convergence

  // ------------------------------------------------------------------- the path

  /** The lowest channels of a set, as many as one vote takes. */
  ghost function Batch(s: set<ChannelID>, limit: nat): (r: set<ChannelID>)
    ensures FirstOf(s, limit, r)
  {
    FirstOfSome(s, limit);
    var r :| FirstOf(s, limit, r);
    r
  }

  ghost function Removed(current: Definitions, desired: Definitions): set<ChannelID> {
    Batch(Extra(current, desired), MAX_REMOVALS)
  }

  ghost function Chosen(current: Definitions, desired: Definitions): (r: set<ChannelID>)
    ensures r <= Differing(current, desired) && r <= desired.Keys
  {
    Batch(Differing(current, desired), MAX_UPDATES)
  }

  /** The set after one round of honest votes. */
  ghost function Stepped(current: Definitions, desired: Definitions): Definitions {
    Toward(current, desired, Removed(current, desired), Chosen(current, desired))
  }

  /** The same once some of its expression channels were evaluated. */
  ghost function Onward(
    config: Config, current: Definitions, desired: Definitions, evaluated: set<ChannelID>): Definitions
  {
    Appended(config, Stepped(current, desired), evaluated)
  }

  /** The committed set after rounds that evaluated these channels. */
  ghost function Path(
    config: Config, first: Definitions, desired: Definitions, evaluations: seq<set<ChannelID>>): Definitions
  {
    if evaluations == [] then first
    else
      var n := |evaluations| - 1;
      Onward(config, Path(config, first, desired, evaluations[..n]), desired, evaluations[n])
  }

  lemma PathStart(config: Config, first: Definitions, desired: Definitions)
    ensures Path(config, first, desired, []) == first
  {
  }

  lemma PathNext(
    config: Config, first: Definitions, desired: Definitions, evaluations: seq<set<ChannelID>>, n: nat)
    requires n + 1 == |evaluations|
    ensures Path(config, first, desired, evaluations) ==
            Onward(config, Path(config, first, desired, evaluations[..n]), desired, evaluations[n])
  {
  }

  /** No evaluation changes any of the definitions. */
  ghost predicate Stable(config: Config, defs: Definitions) {
    forall c :: c in defs ==> WithCalculated(config, defs[c]) == defs[c]
  }

  lemma SteppedParts(current: Definitions, desired: Definitions)
    ensures Removed(current, desired) <= Extra(current, desired)
    ensures Extra(Stepped(current, desired), desired) == Extra(current, desired) - Removed(current, desired)
    ensures Differing(Stepped(current, desired), desired) == Differing(current, desired) - Chosen(current, desired)
    ensures |Extra(Stepped(current, desired), desired)| == Max(0, |Extra(current, desired)| - MAX_REMOVALS)
    ensures |Differing(Stepped(current, desired), desired)| == Max(0, |Differing(current, desired)| - MAX_UPDATES)
  {
    hide FirstOf, Extra, Differing, Toward;
    FirstOfSubset(Extra(current, desired), MAX_REMOVALS, Removed(current, desired));
    TowardParts(current, desired, Removed(current, desired), Chosen(current, desired));
    FirstOfRest(Extra(current, desired), MAX_REMOVALS, Removed(current, desired));
    FirstOfRest(Differing(current, desired), MAX_UPDATES, Chosen(current, desired));
  }

  lemma AppendedParts(config: Config, defs: Definitions, desired: Definitions, evaluated: set<ChannelID>)
    ensures Extra(Appended(config, defs, evaluated), desired) == Extra(defs, desired)
    ensures Stable(config, desired) ==>
              Differing(Appended(config, defs, evaluated), desired) <= Differing(defs, desired)
    ensures Stable(config, defs) ==> Appended(config, defs, evaluated) == defs
  {
    hide WithCalculated;
  }

  lemma SteppedStable(config: Config, current: Definitions, desired: Definitions)
    requires Stable(config, current) && Stable(config, desired)
    ensures Stable(config, Stepped(current, desired))
  {
    hide FirstOf, WithCalculated;
  }

  /** Each round settles five channels to remove, whatever is evaluated, and at least five
      to add or change if no evaluation changes a desired definition; exactly five if none
      changes a committed one either. */
  lemma {:induction false} PathCounts(
    config: Config, first: Definitions, desired: Definitions, evaluations: seq<set<ChannelID>>)
    ensures var last, n := Path(config, first, desired, evaluations), |evaluations|;
            && |Extra(last, desired)| == Max(0, |Extra(first, desired)| - MAX_REMOVALS * n)
            && (Stable(config, desired) ==>
                  |Differing(last, desired)| <= Max(0, |Differing(first, desired)| - MAX_UPDATES * n))
            && (Stable(config, desired) && Stable(config, first) ==>
                  && Stable(config, last)
                  && |Differing(last, desired)| == Max(0, |Differing(first, desired)| - MAX_UPDATES * n))
    decreases |evaluations|
  {
    hide Path, Onward, Extra, Differing, Stable;
    if evaluations == [] {
      PathStart(config, first, desired);
    } else {
      var n := |evaluations| - 1;
      PathNext(config, first, desired, evaluations, n);
      PathCounts(config, first, desired, evaluations[..n]);
      OnwardCounts(config, Path(config, first, desired, evaluations[..n]), desired, evaluations[n]);
    }
  }

  lemma OnwardCounts(config: Config, current: Definitions, desired: Definitions, evaluated: set<ChannelID>)
    ensures var next := Onward(config, current, desired, evaluated);
            && |Extra(next, desired)| == Max(0, |Extra(current, desired)| - MAX_REMOVALS)
            && (Stable(config, desired) ==>
                  |Differing(next, desired)| <= Max(0, |Differing(current, desired)| - MAX_UPDATES))
            && (Stable(config, desired) && Stable(config, current) ==>
                  && Stable(config, next)
                  && |Differing(next, desired)| == Max(0, |Differing(current, desired)| - MAX_UPDATES))
  {
    hide Extra, Differing, Stable, Stepped, Appended;
    SteppedParts(current, desired);
    AppendedParts(config, Stepped(current, desired), desired, evaluated);
    if Stable(config, desired) {
      SubsetSize(Differing(Onward(config, current, desired, evaluated), desired),
          Differing(Stepped(current, desired), desired));
      if Stable(config, current) { SteppedStable(config, current, desired); }
    }
  }

  /** As many rounds as both sides need. */
  ghost predicate Enough(first: Definitions, desired: Definitions, n: nat) {
    MAX_REMOVALS * n >= |Extra(first, desired)| && MAX_UPDATES * n >= |Differing(first, desired)|
  }

  /** If no evaluation changes a desired definition, the path ends at the desired set once
      there were enough rounds; if none changes a committed one either, not earlier. */
  lemma PathArrives(config: Config, first: Definitions, desired: Definitions, evaluations: seq<set<ChannelID>>)
    requires Stable(config, desired)
    ensures Enough(first, desired, |evaluations|) ==> Path(config, first, desired, evaluations) == desired
    ensures Stable(config, first) && Path(config, first, desired, evaluations) == desired ==>
              Enough(first, desired, |evaluations|)
  {
    hide Path, Stable, Extra, Differing;
    PathCounts(config, first, desired, evaluations);
    AgreeIff(Path(config, first, desired, evaluations), desired);
  }

  // ------------------------------------------------- when the path stays there

  /** The path of rounds that evaluate nothing. */
  lemma {:induction false} UnevaluatedPath(config: Config, first: Definitions, desired: Definitions, n: nat)
    ensures var last := Path(config, first, desired, Idle(n));
            && |Extra(last, desired)| == Max(0, |Extra(first, desired)| - MAX_REMOVALS * n)
            && |Differing(last, desired)| == Max(0, |Differing(first, desired)| - MAX_UPDATES * n)
  {
    hide Path, Extra, Differing, Stepped, Appended;
    if n == 0 {
      assert Idle(0) == [];
      PathStart(config, first, desired);
    } else {
      UnevaluatedPath(config, first, desired, n - 1);
      var current := Path(config, first, desired, Idle(n - 1));
      assert Idle(n)[..n - 1] == Idle(n - 1);
      PathNext(config, first, desired, Idle(n), n - 1);
      NothingAppended(config, Stepped(current, desired));
      SteppedParts(current, desired);
    }
  }

  lemma NothingAppended(config: Config, defs: Definitions)
    ensures Appended(config, defs, {}) == defs
  {
  }

  ghost function Idle(n: nat): seq<set<ChannelID>> { seq(n, i => {}) }

  /** Given enough rounds, the path ends at the desired set whatever those rounds evaluate
      if and only if no evaluation changes a desired definition. */
  lemma SettlesIff(config: Config, first: Definitions, desired: Definitions, n: nat)
    requires n > 0 && Enough(first, desired, n)
    ensures (forall evaluations: seq<set<ChannelID>> :: |evaluations| == n ==>
               Path(config, first, desired, evaluations) == desired)
       <==> Stable(config, desired)
  {
    hide Path, Enough, WithCalculated;
    if Stable(config, desired) {
      forall evaluations: seq<set<ChannelID>> | |evaluations| == n
        ensures Path(config, first, desired, evaluations) == desired
      {
        PathArrives(config, first, desired, evaluations);
      }
    } else {
      var c :| c in desired && WithCalculated(config, desired[c]) != desired[c];
      LastRoundUnsettles(config, first, desired, n, c);
      assert |Idle(n - 1) + [{c}]| == n;
    }
  }

  lemma LastRoundUnsettles(config: Config, first: Definitions, desired: Definitions, n: nat, c: ChannelID)
    requires n > 0 && Enough(first, desired, n)
    requires c in desired && WithCalculated(config, desired[c]) != desired[c]
    ensures Path(config, first, desired, Idle(n - 1) + [{c}]) != desired
  {
    hide Path, Extra, Differing, Stepped, WithCalculated;
    var current := Path(config, first, desired, Idle(n - 1));
    assert (Idle(n - 1) + [{c}])[..n - 1] == Idle(n - 1);
    PathNext(config, first, desired, Idle(n - 1) + [{c}], n - 1);
    UnevaluatedPath(config, first, desired, n - 1);
    SteppedParts(current, desired);
    AgreeIff(Stepped(current, desired), desired);
  }

  /** No evaluation yields a definition that another evaluation would change. */
  lemma NeverAppendedTo(config: Config, cd: Definition, unstable: Definition)
    requires WithCalculated(config, unstable) != unstable
    ensures WithCalculated(config, cd) != unstable
  {
    hide WithCalculated;
    WithCalculatedTwice(config, cd);
  }

  /** An unstable desired channel that differs, and is evaluated, differs ever after. */
  lemma {:induction false} UnstableDiffers(
    config: Config, first: Definitions, desired: Definitions, evaluations: seq<set<ChannelID>>, c: ChannelID)
    requires c in Differing(first, desired) && WithCalculated(config, desired[c]) != desired[c]
    requires forall i :: 0 <= i < |evaluations| ==> c in evaluations[i]
    ensures c in Differing(Path(config, first, desired, evaluations), desired)
    decreases |evaluations|
  {
    hide Path, Onward, Differing, WithCalculated;
    if evaluations == [] {
      PathStart(config, first, desired);
    } else {
      var n := |evaluations| - 1;
      PathNext(config, first, desired, evaluations, n);
      UnstableDiffers(config, first, desired, evaluations[..n], c);
      StillDiffers(config, Path(config, first, desired, evaluations[..n]), desired, evaluations[n], c);
    }
  }

  lemma StillDiffers(
    config: Config, current: Definitions, desired: Definitions, evaluated: set<ChannelID>, c: ChannelID)
    requires c in Differing(current, desired) && c in evaluated && WithCalculated(config, desired[c]) != desired[c]
    ensures c in Differing(Onward(config, current, desired, evaluated), desired)
  {
    hide WithCalculated, Stepped;
    var stepped := Stepped(current, desired);
    if c in stepped { NeverAppendedTo(config, stepped[c], desired[c]); }
  }

  /** Five of them on lower IDs take up every batch, so nothing above is ever added. */
  lemma {:induction false} Starved(
    config: Config, first: Definitions, desired: Definitions, evaluations: seq<set<ChannelID>>,
    stuck: set<ChannelID>, c: ChannelID)
    requires |stuck| >= MAX_UPDATES && stuck <= Differing(first, desired) && c !in first
    requires forall s :: s in stuck ==> s in desired && s < c && WithCalculated(config, desired[s]) != desired[s]
    requires forall i :: 0 <= i < |evaluations| ==> stuck <= evaluations[i]
    ensures c !in Path(config, first, desired, evaluations)
    decreases |evaluations|
  {
    hide Path, Onward, Differing, WithCalculated;
    if evaluations == [] {
      PathStart(config, first, desired);
    } else {
      var n := |evaluations| - 1;
      var current := Path(config, first, desired, evaluations[..n]);
      PathNext(config, first, desired, evaluations, n);
      Starved(config, first, desired, evaluations[..n], stuck, c);
      forall s | s in stuck ensures s in Differing(current, desired) {
        DiffersDesired(first, desired, s);
        UnstableDiffers(config, first, desired, evaluations[..n], s);
      }
      NotChosen(current, desired, stuck, c);
      NotAdded(config, current, desired, evaluations[n], c);
    }
  }

  lemma NotAdded(config: Config, current: Definitions, desired: Definitions, evaluated: set<ChannelID>, c: ChannelID)
    requires c !in current && c !in Chosen(current, desired)
    ensures c !in Onward(config, current, desired, evaluated)
  {
    hide WithCalculated, FirstOf;
  }

  lemma DiffersDesired(first: Definitions, desired: Definitions, s: ChannelID)
    requires s in Differing(first, desired)
    ensures s in desired
  {
  }

  lemma NotChosen(current: Definitions, desired: Definitions, stuck: set<ChannelID>, c: ChannelID)
    requires |stuck| >= MAX_UPDATES && stuck <= Differing(current, desired) && forall s :: s in stuck ==> s < c
    ensures c !in Chosen(current, desired)
  {
    hide Differing;
    var lower := set x | x in Differing(current, desired) && x < c;
    SubsetSize(stuck, lower);
    BehindTheFirst(Differing(current, desired), MAX_UPDATES, Chosen(current, desired), c);
  }

  /** So six channels, five of them with an unlisted calculated stream, never ramp up. */
  lemma SixthNeverAdded(
    config: Config, cd: Definition, other: Definition, evaluations: seq<set<ChannelID>>)
    requires WithCalculated(config, cd) != cd
    requires forall i :: 0 <= i < |evaluations| ==> {1, 2, 3, 4, 5} <= evaluations[i]
    ensures var desired := map[1 := cd, 2 := cd, 3 := cd, 4 := cd, 5 := cd, 6 := other];
            6 !in Path(config, map[], desired, evaluations)
  {
    hide WithCalculated, Path;
    var desired := map[1 := cd, 2 := cd, 3 := cd, 4 := cd, 5 := cd, 6 := other];
    var stuck: set<ChannelID> := {1, 2, 3, 4, 5};
    assert |stuck| == 5;
    assert stuck <= Differing(map[], desired);
    Starved(config, map[], desired, evaluations, stuck, 6);
  }

  // ------------------------------------------------------------ accepted rounds

  /** Every honest vote on the committed set is accepted. */
  ghost predicate AllAccepted(rules: Rules, current: Definitions, desired: Definitions) {
    forall o :: VotesFor(current, desired, o) ==> Accepted(rules, current, o)
  }

  lemma AcceptedAlike(rules: Rules, current: Definitions, desired: Definitions, o: Observation)
    requires VotesFor(current, desired, o)
    ensures AllAccepted(rules, current, desired) <==> Accepted(rules, current, o)
  {
    hide VotesFor, Baseline;
    forall p | VotesFor(current, desired, p) ensures Accepted(rules, current, p) <==> Accepted(rules, current, o) {
      HonestVotesAgree(current, desired, p, o);
    }
  }

  lemma AcceptedFits(rules: Rules, current: Definitions, desired: Definitions)
    requires AllAccepted(rules, current, desired)
    ensures VoteFits(current, desired)
  {
    hide FirstOf, VoteFits, StreamIDs, ChannelOk;
    var o := HonestVote(current, desired);
    assert Accepted(rules, current, o);
    VoteFitsFor(current, desired, o.updates.Keys);
    MergedFits(current, o.updates);
  }

  ghost predicate HonestObservers(
    aos: Attributed, faulty: set<nat>, current: Definitions, desired: Definitions)
  {
    forall i :: 0 <= i < |aos| && i !in faulty ==> aos[i].Some? && VotesFor(current, desired, aos[i].value)
  }

  /** Observations a round can be built on: enough of them, all accepted, at most `f` faulty. */
  ghost predicate AcceptedObservations(
    rules: Rules, f: nat, aos: Attributed, faulty: set<nat>, current: Definitions, desired: Definitions)
  {
    && |aos| >= 2 * f + 1 && |faulty| <= f && HonestObservers(aos, faulty, current, desired)
    && forall i :: 0 <= i < |aos| && aos[i].Some? ==> Accepted(rules, current, aos[i].value)
  }

  /** Such observations exist exactly when honest votes are accepted. */
  lemma RoundPossibleIff(rules: Rules, f: nat, current: Definitions, desired: Definitions)
    ensures (exists aos, faulty :: AcceptedObservations(rules, f, aos, faulty, current, desired))
       <==> AllAccepted(rules, current, desired)
  {
    hide Accepted, VotesFor, AllAccepted;
    var o := HonestVote(current, desired);
    AcceptedAlike(rules, current, desired, o);
    if AllAccepted(rules, current, desired) {
      var aos: Attributed := seq(2 * f + 1, i => Some(o));
      assert AcceptedObservations(rules, f, aos, {}, current, desired);
    }
    forall aos: Attributed, faulty: set<nat> | AcceptedObservations(rules, f, aos, faulty, current, desired)
      ensures AllAccepted(rules, current, desired)
    {
      var i := HonestOracle(aos, faulty, f);
      AcceptedAlike(rules, current, desired, aos[i].value);
    }
  }

  /** A round built on such observations. */
  ghost predicate AcceptedRound(
    config: Config, rules: Rules, hash: Hash, verify: Verifier, prev: Outcome, desired: Definitions, d: Decision)
  {
    && !NextStage(prev, d).Retired?
    && exists aos, v, valued, faulty ::
         && Tallied(config, hash, verify, aos, v) && Decided(config, v, valued, d)
         && AcceptedObservations(rules, config.f, aos, faulty, prev.definitions, desired)
  }

  /** It takes the committed set one step along the path. */
  lemma RoundFollows(
    config: Config, rules: Rules, hash: Hash, verify: Verifier, prev: Outcome, desired: Definitions, d: Decision)
    requires AcceptedRound(config, rules, hash, verify, prev, desired, d) && Exact(config, hash)
    ensures AllAccepted(rules, prev.definitions, desired)
    ensures NextDefinitions(config, prev, d) == Onward(config, prev.definitions, desired, d.evaluated)
  {
    hide Tallied, Decided, Exact, InstallAll, FirstOf, VoteFits, VotedIn, AsDesired, Extra, Differing, Toward,
      Appended, AllAccepted, Accepted, Fits;
    var current := prev.definitions;
    var aos, v, valued, faulty :|
      && Tallied(config, hash, verify, aos, v) && Decided(config, v, valued, d)
      && AcceptedObservations(rules, config.f, aos, faulty, current, desired);
    RoundPossibleIff(rules, config.f, current, desired);
    AcceptedFits(rules, current, desired);
    HonestMajorityDecides(config, hash, verify, aos, v, valued, d, faulty, current, desired);
    DecisionFits(current, desired, d);
    DecisionIsExact(current, desired, d);
    FirstOfUnique(Extra(current, desired), MAX_REMOVALS, d.removed, Removed(current, desired));
    FirstOfUnique(Differing(current, desired), MAX_UPDATES, VotedIn(d.winners), Chosen(current, desired));
  }

  // ----------------------------------------------------------------- whole runs

  function Evaluations(decisions: seq<Decision>): seq<set<ChannelID>> {
    seq(|decisions|, i requires 0 <= i < |decisions| => decisions[i].evaluated)
  }

  ghost predicate AcceptedRun(
    config: Config, rules: Rules, hash: Hash, verify: Verifier, states: seq<Outcome>, decisions: seq<Decision>,
    desired: Definitions)
  {
    && IsRun(config, states, decisions)
    && forall i :: 0 <= i < |decisions| ==>
         AcceptedRound(config, rules, hash, verify, states[i], desired, decisions[i])
  }

  /** Every run of accepted rounds follows the path. */
  lemma {:induction false} RunsFollowPath(
    config: Config, rules: Rules, hash: Hash, verify: Verifier, states: seq<Outcome>, decisions: seq<Decision>,
    desired: Definitions)
    requires AcceptedRun(config, rules, hash, verify, states, decisions, desired) && Exact(config, hash)
    ensures states[|states| - 1].definitions == Path(config, states[0].definitions, desired, Evaluations(decisions))
    decreases |states|
  {
    hide AcceptedRound, Exact, IsStep, Onward, Path;
    if decisions == [] {
      PathStart(config, states[0].definitions, desired);
    } else {
      var n := |decisions| - 1;
      PathNext(config, states[0].definitions, desired, Evaluations(decisions), n);
      RunDrop(config, states, decisions);
      RunsFollowPath(config, rules, hash, verify, states[..n + 1], decisions[..n], desired);
      RoundFollows(config, rules, hash, verify, states[n], desired, decisions[n]);
      StepDefinitions(config, states[n], decisions[n], states[n + 1]);
      assert Evaluations(decisions)[..n] == Evaluations(decisions[..n]);
    }
  }

  lemma StepDefinitions(config: Config, prev: Outcome, d: Decision, next: Outcome)
    requires IsStep(config, prev, d, next)
    ensures next.definitions == NextDefinitions(config, prev, d)
  {
    hide NextWatermarks, NextDefinitions;
  }

  /** Over every run of accepted rounds, with at most `f` faulty oracles in each and
      whatever is evaluated, five channels too many go each round. If no evaluation changes
      a desired definition, five channels to add or change are settled as well, and after
      enough rounds the committed set is the desired one and stays so. */
  lemma RunsConverge(
    config: Config, rules: Rules, hash: Hash, verify: Verifier, states: seq<Outcome>, decisions: seq<Decision>,
    desired: Definitions)
    requires AcceptedRun(config, rules, hash, verify, states, decisions, desired) && Exact(config, hash)
    ensures var first, last, n := states[0].definitions, states[|states| - 1].definitions, |decisions|;
            && |Extra(last, desired)| == Max(0, |Extra(first, desired)| - MAX_REMOVALS * n)
            && (Stable(config, desired) ==>
                  && |Differing(last, desired)| <= Max(0, |Differing(first, desired)| - MAX_UPDATES * n)
                  && (Enough(first, desired, n) ==> last == desired))
            && (Stable(config, desired) && Stable(config, first) ==>
                  && |Differing(last, desired)| == Max(0, |Differing(first, desired)| - MAX_UPDATES * n)
                  && (last == desired <==> Enough(first, desired, n)))
  {
    hide AcceptedRound, IsStep, Exact, Path, Stable, Extra, Differing, Enough;
    RunsFollowPath(config, rules, hash, verify, states, decisions, desired);
    PathCounts(config, states[0].definitions, desired, Evaluations(decisions));
    if Stable(config, desired) { PathArrives(config, states[0].definitions, desired, Evaluations(decisions)); }
  }

  // ------------------------------------------------------------ rounds that happen

  lemma {:induction false} NobodyRetires(aos: Attributed)
    requires forall i :: 0 <= i < |aos| ==> aos[i].Some? && !aos[i].value.shouldRetire && aos[i].value.attested.None?
    ensures Count(aos, Retires) == 0 && (aos != [] ==> Timestamps(aos) != [])
  {
    CountNone(aos, Retires);
  }

  lemma NotRetired(config: Config, hash: Hash, verify: Verifier, aos: Attributed, v: Votes, valued: Valued, d: Decision)
    requires Tallied(config, hash, verify, aos, v) && Decided(config, v, valued, d) && Count(aos, Retires) == 0
    ensures !d.retire && d.evaluated == valued.evaluated
  {
    hide Count, UpdatesTallied, Ordered, MiddleTime, Timestamps, FirstReport;
  }

  /** One round of an instance whose oracles all want `desired`, if their vote is accepted. */
  method HonestRound(
    config: Config, rules: Rules, hash: Hash, verify: Verifier, prev: Outcome, desired: Definitions,
    evaluated: set<ChannelID>, now: nat)
    returns (next: Option<Outcome>, ghost d: Decision)
    requires config.version > 0 && !prev.stage.Retired?
    ensures next.Some? <==> AllAccepted(rules, prev.definitions, desired)
    ensures next.Some? ==>
              && IsStep(config, prev, d, next.value) && d.evaluated == evaluated && !next.value.stage.Retired?
              && AcceptedRound(config, rules, hash, verify, prev, desired, d)
  {
    hide Tallied, Decided, Accepted, VotesFor, AllAccepted, Count, Timestamps, NextDefinitions, NextWatermarks,
      WellFormed, MiddleCounts, SentUpTo, SentFrom;
    d := Decision(0, None, false, {}, [], {}, {});
    var removals, updates := VoteOnChannels(prev.definitions, desired);
    var o := Observation(None, false, now, removals, updates);
    AcceptedAlike(rules, prev.definitions, desired, o);
    var ok := ValidateChannelVotes(rules, prev.definitions, o);
    if !ok {
      return None, d;
    }
    var aos: Attributed := seq(2 * config.f + 1, i => Some(o));
    assert |aos| == 2 * config.f + 1 && aos[0].Some?;
    NobodyRetires(aos);
    var valued := Valued({}, evaluated);
    var r;
    ghost var v;
    r, v, d := NextOutcome(config, hash, verify, prev, aos, valued);
    NotRetired(config, hash, verify, aos, v, valued, d);
    assert AcceptedObservations(rules, config.f, aos, {}, prev.definitions, desired);
    next := Some(Stored(config, r.value));
  }

  /** Runs rounds until a vote is not accepted. All of them happen exactly when the honest
      vote on every set of the path before its end is accepted. */
  method RunHonestRounds(
    config: Config, rules: Rules, hash: Hash, verify: Verifier, first: Outcome, desired: Definitions,
    evaluations: seq<set<ChannelID>>, now: nat)
    returns (states: seq<Outcome>, ghost decisions: seq<Decision>)
    requires Exact(config, hash) && !first.stage.Retired?
    ensures AcceptedRun(config, rules, hash, verify, states, decisions, desired) && states[0] == first
    ensures |decisions| <= |evaluations| && Evaluations(decisions) == evaluations[..|decisions|]
    ensures |decisions| == |evaluations| <==>
            forall k :: 0 <= k < |evaluations| ==>
              AllAccepted(rules, Path(config, first.definitions, desired, evaluations[..k]), desired)
  {
    hide AcceptedRound, IsStep, AllAccepted, Path;
    states, decisions := [first], [];
    for i := 0 to |evaluations|
      invariant |decisions| == i && AcceptedRun(config, rules, hash, verify, states, decisions, desired)
      invariant states[0] == first && !states[i].stage.Retired? && Evaluations(decisions) == evaluations[..i]
      invariant forall k :: 0 <= k < i ==>
                  AllAccepted(rules, Path(config, first.definitions, desired, evaluations[..k]), desired)
    {
      RunsFollowPath(config, rules, hash, verify, states, decisions, desired);
      ghost var d;
      var next;
      next, d := HonestRound(config, rules, hash, verify, states[i], desired, evaluations[i], now);
      if next.None? {
        return;
      }
      AcceptedMore(config, rules, hash, verify, states, decisions, desired, next.value, d);
      states, decisions := states + [next.value], decisions + [d];
      assert Evaluations(decisions) == evaluations[..i + 1];
    }
    assert evaluations[..|evaluations|] == evaluations;
  }

  lemma AcceptedMore(
    config: Config, rules: Rules, hash: Hash, verify: Verifier, states: seq<Outcome>, decisions: seq<Decision>,
    desired: Definitions, next: Outcome, d: Decision)
    requires AcceptedRun(config, rules, hash, verify, states, decisions, desired)
    requires IsStep(config, states[|decisions|], d, next)
    requires AcceptedRound(config, rules, hash, verify, states[|decisions|], desired, d)
    ensures AcceptedRun(config, rules, hash, verify, states + [next], decisions + [d], desired)
  {
    hide AcceptedRound, IsStep;
  }

  // --------------------------------------- when acceptance is a matter of counting

  /** Whatever happens, a vote that fits is followed by one that fits. */
  lemma VoteFitsOnward(config: Config, current: Definitions, desired: Definitions, evaluated: set<ChannelID>)
    requires VoteFits(current, desired) && Fits(current.Keys) && |desired| <= MAX_CHANNELS
    ensures var next := Onward(config, current, desired, evaluated); VoteFits(next, desired) && Fits(next.Keys)
  {
    hide FirstOf, Extra, Fits, Onward, Differing, VoteFits, Removed;
    var next := Onward(config, current, desired, evaluated);
    var removed, chosen := Removed(current, desired), Chosen(current, desired);
    OnwardKeys(config, current, desired, evaluated);
    ChosenFits(current, desired);
    forall more | FirstOf(Differing(next, desired), MAX_UPDATES, more) ensures Fits(next.Keys + more) {
      FirstOfSubset(Differing(next, desired), MAX_UPDATES, more);
      FirstOfSize(Differing(next, desired), MAX_UPDATES, more);
      DifferingDesired(next, desired);
      RemovedFirst(current, desired);
      MoreFits(current, desired, removed, chosen, more);
    }
    FitsAlways(next, desired);
    SubsetFits(next.Keys, current.Keys + chosen);
  }

  lemma OnwardKeys(config: Config, current: Definitions, desired: Definitions, evaluated: set<ChannelID>)
    ensures Onward(config, current, desired, evaluated).Keys ==
            current.Keys - Removed(current, desired) + Chosen(current, desired)
    ensures Onward(config, current, desired, evaluated).Keys <= current.Keys + Chosen(current, desired)
  {
    hide FirstOf, WithCalculated, Differing, Removed;
  }

  lemma ChosenFits(current: Definitions, desired: Definitions)
    requires VoteFits(current, desired) && Fits(current.Keys)
    ensures Fits(current.Keys + Chosen(current, desired))
  {
    hide FirstOf, Differing, Fits;
    assert current.Keys + {} == current.Keys;
  }

  lemma DifferingDesired(current: Definitions, desired: Definitions)
    ensures Differing(current, desired) <= desired.Keys
  {
  }

  lemma RemovedFirst(current: Definitions, desired: Definitions)
    ensures FirstOf(Extra(current, desired), MAX_REMOVALS, Removed(current, desired))
  {
  }

  lemma FitsAlways(current: Definitions, desired: Definitions)
    requires forall more :: FirstOf(Differing(current, desired), MAX_UPDATES, more) ==> Fits(current.Keys + more)
    ensures VoteFits(current, desired)
  {
    hide FirstOf, Differing, Fits;
  }

  lemma {:induction false} PathFits(
    config: Config, first: Definitions, desired: Definitions, evaluations: seq<set<ChannelID>>)
    requires VoteFits(first, desired) && Fits(first.Keys) && |desired| <= MAX_CHANNELS
    ensures var last := Path(config, first, desired, evaluations); VoteFits(last, desired) && Fits(last.Keys)
    decreases |evaluations|
  {
    hide Path, Onward, VoteFits, Fits;
    if evaluations == [] {
      PathStart(config, first, desired);
    } else {
      var n := |evaluations| - 1;
      PathNext(config, first, desired, evaluations, n);
      PathFits(config, first, desired, evaluations[..n]);
      VoteFitsOnward(config, Path(config, first, desired, evaluations[..n]), desired, evaluations[n]);
    }
  }

  /** Both sets define the channel alike. */
  predicate Agreed(current: Definitions, desired: Definitions, c: ChannelID) {
    c in current && c in desired && current[c] == desired[c]
  }

  predicate SuitsTarget(rules: Rules, desired: Definitions, cd: Definition) {
    var t := rules.target(cd);
    t.Some? && t.value in desired && rules.suits(cd, desired[t.value])
  }

  /** The desired set passes the checks and the committed definitions pass their own. A
      committed backfill's target is agreed; a desired one's is, or is added before it.
      The stream IDs of both sets fit together, and no evaluation changes a definition. */
  ghost predicate Admissible(config: Config, rules: Rules, current: Definitions, desired: Definitions) {
    && Baseline(rules, desired) && Stable(config, current) && Stable(config, desired)
    && (forall c :: c in current ==> current[c].tombstone || OwnChecks(rules, current[c]))
    && (forall c :: c in current && IsBackfill(current[c]) ==>
          SuitsTarget(rules, desired, current[c]) && Agreed(current, desired, rules.target(current[c]).value))
    && (forall c :: c in desired && IsBackfill(desired[c]) ==>
          && SuitsTarget(rules, desired, desired[c])
          && var t := rules.target(desired[c]).value;
             Agreed(current, desired, t) || (t < c && c in Differing(current, desired)))
    && |StreamIDs(current) + StreamIDs(desired)| <= MAX_STREAM_IDS
  }

  /** Every channel is defined as committed or as desired, none on which both agree is
      missing, and a differing channel is as desired only if every lower one is. */
  ghost predicate Between(current: Definitions, desired: Definitions, defs: Definitions) {
    && (forall c :: c in defs ==> (c in current && defs[c] == current[c]) || Agreed(defs, desired, c))
    && (forall c :: Agreed(current, desired, c) ==> c in defs)
    && (forall t, c :: t in Differing(current, desired) && c in Differing(current, desired) && t < c ==>
          Agreed(defs, desired, c) ==> Agreed(defs, desired, t))
  }

  lemma BetweenStreamIDs(current: Definitions, desired: Definitions, defs: Definitions)
    requires Between(current, desired, defs)
    ensures |StreamIDs(defs)| <= |StreamIDs(current) + StreamIDs(desired)|
  {
    assert StreamIDs(defs) <= StreamIDs(current) + StreamIDs(desired);
    SubsetSize(StreamIDs(defs), StreamIDs(current) + StreamIDs(desired));
  }

  lemma BetweenChannelOk(
    config: Config, rules: Rules, current: Definitions, desired: Definitions, defs: Definitions, c: ChannelID)
    requires Admissible(config, rules, current, desired) && Between(current, desired, defs) && c in defs
    ensures ChannelOk(rules, defs, defs[c])
  {
    hide StreamIDs, OwnChecks, WithCalculated;
    if IsBackfill(defs[c]) {
      var t := rules.target(defs[c]).value;
      assert Agreed(current, desired, t) || (t in Differing(current, desired) && t < c);
    }
  }

  /** On the way from one set to the other only the number of channels can fail a check. */
  lemma BetweenPasses(config: Config, rules: Rules, current: Definitions, desired: Definitions, defs: Definitions)
    requires Admissible(config, rules, current, desired) && Between(current, desired, defs)
    ensures Baseline(rules, defs) <==> |defs| <= MAX_CHANNELS
  {
    hide StreamIDs, ChannelOk, Between;
    BetweenStreamIDs(current, desired, defs);
    forall c | c in defs ensures ChannelOk(rules, defs, defs[c]) {
      BetweenChannelOk(config, rules, current, desired, defs, c);
    }
  }

  lemma BetweenStable(config: Config, first: Definitions, desired: Definitions, defs: Definitions)
    requires Stable(config, first) && Stable(config, desired) && Between(first, desired, defs)
    ensures Stable(config, defs)
  {
    hide WithCalculated;
  }

  /** Adding the lowest differing channels, and removing some that are not desired. */
  lemma BetweenNext(
    first: Definitions, desired: Definitions, current: Definitions, removed: set<ChannelID>, chosen: set<ChannelID>)
    requires Between(first, desired, current) && removed <= Extra(current, desired)
    requires FirstOf(Differing(current, desired), MAX_UPDATES, chosen) && chosen <= desired.Keys
    ensures Between(first, desired, Toward(current, desired, removed, chosen))
  {
    hide FirstOf;
    var next := Toward(current, desired, removed, chosen);
    FirstOfSubset(Differing(current, desired), MAX_UPDATES, chosen);
    forall t, c | t in Differing(first, desired) && c in Differing(first, desired) && t < c && Agreed(next, desired, c)
      ensures Agreed(next, desired, t)
    {
      if c in chosen {
        LowerIsChosen(Differing(current, desired), MAX_UPDATES, chosen, t, c);
      } else {
        assert Agreed(current, desired, c);
      }
    }
  }

  lemma LowerIsChosen(s: set<ChannelID>, limit: nat, r: set<ChannelID>, t: ChannelID, c: ChannelID)
    requires FirstOf(s, limit, r) && c in r && t < c
    ensures t in s ==> t in r
  {
    assert t in s - r ==> c < t;
  }

  lemma {:induction false} PathBetween(
    config: Config, first: Definitions, desired: Definitions, evaluations: seq<set<ChannelID>>)
    requires Stable(config, first) && Stable(config, desired)
    ensures Between(first, desired, Path(config, first, desired, evaluations))
    decreases |evaluations|
  {
    hide Path, Stable, Between, Toward, Extra;
    if evaluations == [] {
      PathStart(config, first, desired);
      BetweenItself(first, desired);
    } else {
      var n := |evaluations| - 1;
      var current := Path(config, first, desired, evaluations[..n]);
      PathNext(config, first, desired, evaluations, n);
      PathBetween(config, first, desired, evaluations[..n]);
      SteppedParts(current, desired);
      BetweenNext(first, desired, current, Removed(current, desired), Chosen(current, desired));
      BetweenStable(config, first, desired, Stepped(current, desired));
      AppendedParts(config, Stepped(current, desired), desired, evaluations[n]);
    }
  }

  lemma BetweenItself(first: Definitions, desired: Definitions)
    ensures Between(first, desired, first)
  {
  }

  /** From an admissible start an honest vote anywhere on the path is accepted exactly when
      it fits. */
  lemma VoteAcceptedIff(config: Config, rules: Rules, first: Definitions, desired: Definitions, current: Definitions)
    requires Admissible(config, rules, first, desired) && Between(first, desired, current)
    ensures AllAccepted(rules, current, desired) <==> VoteFits(current, desired)
  {
    hide Admissible, Between, FirstOf, Baseline, VoteFits, AllAccepted, Differing, Extra;
    var o := HonestVote(current, desired);
    AcceptedAlike(rules, current, desired, o);
    VoteFitsFor(current, desired, o.updates.Keys);
    FirstOfSize(Extra(current, desired), MAX_REMOVALS, o.removals);
    FirstOfSize(Differing(current, desired), MAX_UPDATES, o.updates.Keys);
    FirstOfSubset(Differing(current, desired), MAX_UPDATES, o.updates.Keys);
    BetweenMerged(first, desired, current, o.updates);
    BetweenPasses(config, rules, first, desired, current + o.updates);
    MergedFits(current, o.updates);
  }

  lemma BetweenMerged(first: Definitions, desired: Definitions, current: Definitions, updates: Definitions)
    requires Between(first, desired, current) && FirstOf(Differing(current, desired), MAX_UPDATES, updates.Keys)
    requires forall c :: c in updates ==> c in desired && updates[c] == desired[c]
    ensures Between(first, desired, current + updates)
  {
    hide FirstOf, Between;
    BetweenNext(first, desired, current, {}, updates.Keys);
    MergedIsToward(current, desired, updates);
  }

  lemma MergedIsToward(current: Definitions, desired: Definitions, updates: Definitions)
    requires forall c :: c in updates ==> c in desired && updates[c] == desired[c]
    ensures updates.Keys <= desired.Keys && current + updates == Toward(current, desired, {}, updates.Keys)
  {
  }

  /** From an admissible start every honest vote of every run is accepted exactly when the
      first one fits. */
  lemma AllVotesAcceptedIff(config: Config, rules: Rules, first: Definitions, desired: Definitions)
    requires Admissible(config, rules, first, desired) && |first| <= MAX_CHANNELS
    ensures (forall evaluations: seq<set<ChannelID>> ::
               AllAccepted(rules, Path(config, first, desired, evaluations), desired))
       <==> VoteFits(first, desired)
  {
    hide Path, Between, VoteFits, AllAccepted, Stable, StreamIDs, ChannelOk, OwnChecks, IsBackfill;
    PathStart(config, first, desired);
    BetweenItself(first, desired);
    VoteAcceptedIff(config, rules, first, desired, first);
    assert |first.Keys| == |first|;
    if VoteFits(first, desired) {
      forall evaluations: seq<set<ChannelID>>
        ensures AllAccepted(rules, Path(config, first, desired, evaluations), desired)
      {
        PathFits(config, first, desired, evaluations);
        PathBetween(config, first, desired, evaluations);
        VoteAcceptedIff(config, rules, first, desired, Path(config, first, desired, evaluations));
      }
    }
  }
}
