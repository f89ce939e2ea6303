/** How honest oracles vote on channels, and why the channel set converges
    (llo/v30/plugin_observation.go, llo/protocol/channel_definitions.go). */
module Convergence {
  import opened Collections
  import opened Medians
  import opened Tallies
  import opened Outcomes
  import opened OutcomeRuns
  import opened Votes
  import opened OutcomeRounds
  import opened Validations

  // ------------------------------------------------------------------- voting

  /** The lowest elements of a set, up to a limit. */
  ghost predicate FirstOf(s: set<ChannelID>, limit: nat, r: set<ChannelID>) {
    && r <= s && |r| == Min(|s|, limit)
    && forall x, y :: x in r && y in s - r ==> x < y
  }

  lemma FirstOfSome(s: set<ChannelID>, limit: nat)
    ensures exists r :: FirstOf(s, limit, r)
  {
    var _ := FirstOfExists(s, limit);
  }

  lemma {:induction false} FirstOfExists(s: set<ChannelID>, limit: nat) returns (r: set<ChannelID>)
    ensures FirstOf(s, limit, r)
    decreases limit
  {
    if s == {} || limit == 0 {
      r := {};
    } else {
      var m := LeastOf(s);
      var rest := FirstOfExists(s - {m}, limit - 1);
      r := rest + {m};
      LowestAdded(s, limit, m, rest);
    }
  }

  lemma LowestAdded(s: set<ChannelID>, limit: nat, m: ChannelID, rest: set<ChannelID>)
    requires m in s && limit > 0 && FirstOf(s - {m}, limit - 1, rest) && forall x :: x in s ==> m <= x
    ensures FirstOf(s, limit, rest + {m})
  {
    assert |s - {m}| == |s| - 1;
    forall x, y | x in rest + {m} && y in s - (rest + {m}) ensures x < y {
      assert y in (s - {m}) - rest;
    }
  }

  lemma FirstOfNested(s: set<ChannelID>, limit: nat, a: set<ChannelID>, b: set<ChannelID>)
    requires FirstOf(s, limit, a) && FirstOf(s, limit, b)
    ensures a <= b || b <= a
  {
    if !(a <= b) {
      var x :| x in a && x !in b;
      assert x in s - b;
      forall y | y in b ensures y in a {
        assert y < x;
        assert y in s - a ==> x < y;
      }
    }
  }

  lemma FirstOfUnique(s: set<ChannelID>, limit: nat, a: set<ChannelID>, b: set<ChannelID>)
    requires FirstOf(s, limit, a) && FirstOf(s, limit, b)
    ensures a == b
  {
    FirstOfNested(s, limit, a, b);
    if a <= b { SameSizeSubset(a, b); } else { SameSizeSubset(b, a); }
  }

  ghost predicate Ascending(ids: seq<ChannelID>, s: set<ChannelID>) {
    SortedBy(ids, NatLeq) && NoDuplicates(ids) && forall x :: x in ids <==> x in s
  }

  lemma PrefixIsFirst(sorted: seq<ChannelID>, s: set<ChannelID>, limit: nat)
    requires Ascending(sorted, s)
    ensures FirstOf(s, limit, (set x | x in sorted[..Min(|sorted|, limit)]))
  {
    var n := Min(|sorted|, limit);
    var r := set x | x in sorted[..n];
    DistinctSize(sorted, s);
    DistinctSize(sorted[..n], r);
    forall i | 0 <= i < n ensures sorted[i] in r {
      assert sorted[..n][i] == sorted[i];
    }
    forall x, y | x in r && y in s - r ensures x < y {
      var i :| 0 <= i < n && sorted[..n][i] == x;
      var j :| 0 <= j < |sorted| && sorted[j] == y;
    }
  }

  function Extra(current: Definitions, desired: Definitions): set<ChannelID> { current.Keys - desired.Keys }

  /** The channels to add or change. */
  function Differing(current: Definitions, desired: Definitions): set<ChannelID> {
    set c | c in desired && (c !in current || current[c] != desired[c])
  }

  method SortIDs(s: set<ChannelID>) returns (ids: seq<ChannelID>)
    ensures Ascending(ids, s)
  {
    var drained := Drain(s);
    ids := Sort(drained, NatLeq);
    SameElements(drained, ids);
    PermutationKeepsNoDuplicates(drained, ids);
  }

  /** The channels of `current` that `desired` lacks, keeping the lowest IDs. */
  method SubtractChannelDefinitions(current: Definitions, desired: Definitions, limit: nat) returns (r: Definitions)
    ensures FirstOf(Extra(current, desired), limit, r.Keys)
    ensures forall c :: c in r ==> c in current && r[c] == current[c]
  {
    hide FirstOf, SortedBy, NoDuplicates;
    var missing := set c | c in current && c !in desired;
    var sorted := SortIDs(missing);
    assert missing == Extra(current, desired);
    PrefixIsFirst(sorted, missing, limit);
    var kept := if |sorted| > limit then sorted[..limit] else sorted;
    assert kept == sorted[..Min(|sorted|, limit)];
    forall c | c in kept ensures c in current {
      assert c in sorted;
    }
    r := map c | c in kept :: current[c];
    assert r.Keys == set x | x in kept;
  }

  /** Votes for the lowest channels that differ from the desired set, a few per round. */
  method VoteUpdates(current: Definitions, desired: Definitions) returns (r: Definitions)
    ensures FirstOf(Differing(current, desired), MAX_UPDATES, r.Keys)
    ensures forall c :: c in r ==> c in desired && r[c] == desired[c]
  {
    hide SortedBy, NoDuplicates, FirstOf, Differing;
    var ids := SortIDs(desired.Keys);
    r := map[];
    for i := 0 to |ids|
      invariant |r| < MAX_UPDATES
      invariant Chosen(current, desired, ids, i, r)
    {
      NextUnseen(ids, i);
      var c := ids[i];
      assert c in ids;
      if c in current && current[c] == desired[c] {
        ChooseNot(current, desired, ids, i, r);
        continue;
      }
      ChooseOne(current, desired, ids, i, r);
      r := r[c := desired[c]];
      if |r| >= MAX_UPDATES {
        CutShort(current, desired, ids, i, r);
        return;
      }
    }
    ChosenAll(current, desired, ids, r);
  }

  /** The differing channels among the first `i`, as desired. */
  ghost predicate Chosen(current: Definitions, desired: Definitions, ids: seq<ChannelID>, i: nat, r: Definitions) {
    && i <= |ids|
    && (forall c :: c in r <==> c in ids[..i] && c in Differing(current, desired))
    && (forall c :: c in r ==> c in desired && r[c] == desired[c])
  }

  lemma ChooseOne(current: Definitions, desired: Definitions, ids: seq<ChannelID>, i: nat, r: Definitions)
    requires i < |ids| && Chosen(current, desired, ids, i, r) && ids[i] in desired && ids[i] !in ids[..i]
    requires !(ids[i] in current && current[ids[i]] == desired[ids[i]])
    ensures Chosen(current, desired, ids, i + 1, r[ids[i] := desired[ids[i]]])
    ensures ids[i] !in r && |r[ids[i] := desired[ids[i]]]| == |r| + 1
  {
    assert ids[..i + 1] == ids[..i] + [ids[i]];
  }

  lemma ChooseNot(current: Definitions, desired: Definitions, ids: seq<ChannelID>, i: nat, r: Definitions)
    requires i < |ids| && Chosen(current, desired, ids, i, r) && ids[i] in desired
    requires ids[i] in current && current[ids[i]] == desired[ids[i]]
    ensures Chosen(current, desired, ids, i + 1, r)
  {
    assert ids[..i + 1] == ids[..i] + [ids[i]];
  }

  lemma ChosenAll(current: Definitions, desired: Definitions, ids: seq<ChannelID>, r: Definitions)
    requires Chosen(current, desired, ids, |ids|, r) && |r| < MAX_UPDATES && Ascending(ids, desired.Keys)
    ensures FirstOf(Differing(current, desired), MAX_UPDATES, r.Keys)
  {
    assert ids[..|ids|] == ids;
    assert r.Keys == Differing(current, desired);
  }

  lemma CutShort(current: Definitions, desired: Definitions, ids: seq<ChannelID>, i: nat, r: Definitions)
    requires i < |ids| && Ascending(ids, desired.Keys) && Chosen(current, desired, ids, i + 1, r) && |r| == MAX_UPDATES
    ensures FirstOf(Differing(current, desired), MAX_UPDATES, r.Keys)
  {
    var s := Differing(current, desired);
    assert |s - r.Keys| == |s| - |r.Keys|;
    forall b | 0 <= b <= i && ids[b] in s ensures ids[b] in r {
      assert ids[..i + 1][b] == ids[b];
    }
    forall x, y | x in r.Keys && y in s - r.Keys ensures x < y {
      var a :| 0 <= a < i + 1 && ids[..i + 1][a] == x;
      var b :| 0 <= b < |ids| && ids[b] == y;
    }
  }

  /** An honest oracle's channel votes. */
  ghost predicate VotesFor(current: Definitions, desired: Definitions, o: Observation) {
    && FirstOf(Extra(current, desired), MAX_REMOVALS, o.removals)
    && FirstOf(Differing(current, desired), MAX_UPDATES, o.updates.Keys)
    && forall c :: c in o.updates ==> c in desired && o.updates[c] == desired[c]
  }

  /** Honest oracles that want the same set cast the same votes. */
  lemma HonestVotesAgree(current: Definitions, desired: Definitions, a: Observation, b: Observation)
    requires VotesFor(current, desired, a) && VotesFor(current, desired, b)
    ensures a.removals == b.removals && a.updates == b.updates
  {
    FirstOfUnique(Extra(current, desired), MAX_REMOVALS, a.removals, b.removals);
    FirstOfUnique(Differing(current, desired), MAX_UPDATES, a.updates.Keys, b.updates.Keys);
  }

  method VoteOnChannels(current: Definitions, desired: Definitions)
    returns (removals: set<ChannelID>, updates: Definitions)
    ensures forall o: Observation :: o.removals == removals && o.updates == updates ==> VotesFor(current, desired, o)
    ensures |removals| <= MAX_REMOVALS && |updates| <= MAX_UPDATES
  {
    var gone := SubtractChannelDefinitions(current, desired, MAX_REMOVALS);
    removals := gone.Keys;
    updates := VoteUpdates(current, desired);
  }

  // -------------------------------------------------------------- convergence

  lemma AgreeIff(current: Definitions, desired: Definitions)
    ensures current == desired <==> Extra(current, desired) == {} && Differing(current, desired) == {}
  {
    if Extra(current, desired) == {} && Differing(current, desired) == {} {
      forall c | c in desired ensures c in current && current[c] == desired[c] {
        assert c !in Differing(current, desired);
      }
      forall c | c in current ensures c in desired {
        assert c !in Extra(current, desired);
      }
      assert current.Keys == desired.Keys;
    }
  }

  /** What the votes of a round decide when all honest oracles want the same set. */
  ghost predicate DecidesFor(current: Definitions, desired: Definitions, d: Decision) {
    && FirstOf(Extra(current, desired), MAX_REMOVALS, d.removed)
    && FirstOf(Differing(current, desired), MAX_UPDATES, VotedIn(d.winners))
    && AsDesired(d.winners, desired)
  }

  ghost predicate AsDesired(winners: seq<Winner>, desired: Definitions) {
    forall w :: w in winners ==> w.id in desired && w.definition == desired[w.id]
  }

  /** Votes are counted by whole definitions, as protocol version 2 does. */
  ghost predicate Exact(config: Config, hash: Hash) { config.version >= 2 && Identifies(hash, config.version) }

  /** Honest oracles outvote the faulty ones, and nothing else is decided. */
  lemma HonestMajorityDecides(
    config: Config, hash: Hash, verify: Verifier, aos: Attributed, v: Votes, valued: Valued, d: Decision,
    faulty: set<nat>, current: Definitions, desired: Definitions)
    requires Tallied(config, hash, verify, aos, v) && Decided(config, v, valued, d) && Exact(config, hash)
    requires |aos| >= 2 * config.f + 1 && |faulty| <= config.f
    requires forall i :: 0 <= i < |aos| && i !in faulty ==> aos[i].Some? && VotesFor(current, desired, aos[i].value)
    ensures DecidesFor(current, desired, d)
  {
    hide Tallied, Decided, Identifies, FirstOf, Count;
    HonestVotesBehindDecisions(config, hash, verify, aos, v, valued, d, faulty);
    var i := HonestOracle(aos, faulty, config.f);
    var o := aos[i].value;
    forall j | 0 <= j < |aos| && j !in faulty
      ensures aos[j].value.removals == o.removals && aos[j].value.updates == o.updates
    {
      HonestVotesAgree(current, desired, aos[j].value, o);
    }
    forall c ensures c in d.removed <==> c in o.removals {
      if c in o.removals { RemovalCarried(config, hash, verify, aos, v, valued, d, faulty, c); }
    }
    assert d.removed == o.removals;
    forall w | w in d.winners ensures w.id in o.updates && w.definition == o.updates[w.id] {
      assert HonestlyVoted(config, aos, faulty, w.id, w.definition);
      var j :| 0 <= j < |aos| && j !in faulty && UpdateLike(config.version, w.id, w.definition)(aos[j]);
    }
    forall c | c in o.updates ensures c in VotedIn(d.winners) {
      UpdateCarried(config, hash, verify, aos, v, valued, d, faulty, c, o.updates[c]);
    }
    assert VotedIn(d.winners) == o.updates.Keys;
  }

  lemma FirstOfSubset(s: set<ChannelID>, limit: nat, r: set<ChannelID>)
    requires FirstOf(s, limit, r)
    ensures r <= s
  {
  }

  lemma HonestOracle(aos: Attributed, faulty: set<nat>, f: nat) returns (i: nat)
    requires |aos| >= 2 * f + 1 && |faulty| <= f
    ensures i < |aos| && i !in faulty
  {
    if forall j :: 0 <= j < |aos| ==> j in faulty {
      OnlyFaultyCounted(aos, o => true, faulty);
      CountAll(aos, o => true);
    }
    i :| 0 <= i < |aos| && i !in faulty;
  }

  lemma RemovalCarried(
    config: Config, hash: Hash, verify: Verifier, aos: Attributed, v: Votes, valued: Valued, d: Decision,
    faulty: set<nat>, c: ChannelID)
    requires Tallied(config, hash, verify, aos, v) && Decided(config, v, valued, d)
    requires |aos| >= 2 * config.f + 1 && |faulty| <= config.f
    requires forall i :: 0 <= i < |aos| && i !in faulty ==> RemovalOf(c)(aos[i])
    ensures c in d.removed
  {
    hide Count, UpdatesTallied, MiddleTime, Ordered;
    HonestCounted(aos, RemovalOf(c), faulty);
  }

  lemma UpdateCarried(
    config: Config, hash: Hash, verify: Verifier, aos: Attributed, v: Votes, valued: Valued, d: Decision,
    faulty: set<nat>, c: ChannelID, cd: Definition)
    requires Tallied(config, hash, verify, aos, v) && Decided(config, v, valued, d) && Exact(config, hash)
    requires |aos| >= 2 * config.f + 1 && |faulty| <= config.f
    requires forall i :: 0 <= i < |aos| && i !in faulty ==> UpdateTo(c, cd)(aos[i])
    ensures exists w :: w in d.winners && w.id == c && w.definition == cd
  {
    hide Count, MiddleTime, UpdateCount, UpdatesTallied, Ordered, Recorded, Identifies;
    HonestCounted(aos, UpdateLike(config.version, c, cd), faulty);
    var _ := CountedWins(config, hash, aos, v, d.winners, c, cd);
  }

  // ------------------------------------------------------------------ one round

  /** The set after removing and installing some channels. */
  function Toward(
    current: Definitions, desired: Definitions, removed: set<ChannelID>, chosen: set<ChannelID>): Definitions
    requires chosen <= desired.Keys
  {
    map c | c in current.Keys - removed + chosen :: if c in chosen then desired[c] else current[c]
  }

  lemma {:induction false} InstalledValues(defs: Definitions, winners: seq<Winner>, desired: Definitions, c: ChannelID)
    requires AsDesired(winners, desired) && c in InstallAll(defs, winners)
    ensures c in VotedIn(winners) ==> c in desired && InstallAll(defs, winners)[c] == desired[c]
    ensures c !in VotedIn(winners) ==> c in defs && InstallAll(defs, winners)[c] == defs[c]
  {
    hide VotedIn;
    if winners == [] {
      NoneVotedIn();
    } else {
      var n := |winners| - 1;
      VotedInNext(winners);
      assert winners[n] in winners;
      forall w | w in winners[..n] ensures w in winners {
      }
      if c in InstallAll(defs, winners[..n]) { InstalledValues(defs, winners[..n], desired, c); }
    }
  }

  predicate Fits(channels: set<ChannelID>) { |channels| <= MAX_CHANNELS }

  lemma SubsetFits(a: set<ChannelID>, b: set<ChannelID>)
    requires a <= b && Fits(b)
    ensures Fits(a)
  {
    SubsetSize(a, b);
  }

  /** With room for all of them, exactly the winners are installed. */
  lemma AllInstalled(defs: Definitions, winners: seq<Winner>)
    requires VotedIn(winners) == {} || Fits(defs.Keys + VotedIn(winners))
    ensures InstallAll(defs, winners).Keys == defs.Keys + VotedIn(winners)
  {
    hide VotedIn;
    InstalledKeys(defs, winners);
    if VotedIn(winners) == {} {
      NoVotes(winners);
      assert defs.Keys + {} == defs.Keys;
    }
  }

  lemma NoVotes(winners: seq<Winner>)
    requires VotedIn(winners) == {}
    ensures winners == []
  {
    if winners != [] { assert winners[0].id in VotedIn(winners) by { assert winners[0] in winners; } }
  }

  /** A decision with room for it makes exactly the decided changes. */
  lemma DecisionIsExact(current: Definitions, desired: Definitions, d: Decision)
    requires DecidesFor(current, desired, d)
    requires VotedIn(d.winners) == {} || Fits(current.Keys - d.removed + VotedIn(d.winners))
    ensures VotedIn(d.winners) <= desired.Keys
    ensures InstallAll(current - d.removed, d.winners) == Toward(current, desired, d.removed, VotedIn(d.winners))
  {
    hide InstallAll, VotedIn, AsDesired, FirstOf, Fits;
    FirstOfSubset(Differing(current, desired), MAX_UPDATES, VotedIn(d.winners));
    var defs := current - d.removed;
    assert defs.Keys == current.Keys - d.removed;
    AllInstalled(defs, d.winners);
    var next := InstallAll(defs, d.winners);
    forall c | c in next ensures next[c] == Toward(current, desired, d.removed, VotedIn(d.winners))[c] {
      InstalledValues(defs, d.winners, desired, c);
    }
  }

  lemma TowardParts(current: Definitions, desired: Definitions, removed: set<ChannelID>, chosen: set<ChannelID>)
    requires removed <= Extra(current, desired) && chosen <= Differing(current, desired)
    ensures chosen <= desired.Keys
    ensures Extra(Toward(current, desired, removed, chosen), desired) == Extra(current, desired) - removed
    ensures Differing(Toward(current, desired, removed, chosen), desired) == Differing(current, desired) - chosen
  {
  }

  lemma FirstOfRest(s: set<ChannelID>, limit: nat, r: set<ChannelID>)
    requires FirstOf(s, limit, r)
    ensures |s - r| == Max(0, |s| - limit)
  {
    assert s == (s - r) + r;
  }

  // ------------------------------------------------------- room for honest votes

  /** Whether the next honest vote leaves the merged set within the maximum. */
  ghost predicate VoteFits(current: Definitions, desired: Definitions) {
    forall chosen :: FirstOf(Differing(current, desired), MAX_UPDATES, chosen) ==>
        chosen == {} || Fits(current.Keys + chosen)
  }

  lemma VoteFitsFor(current: Definitions, desired: Definitions, chosen: set<ChannelID>)
    requires FirstOf(Differing(current, desired), MAX_UPDATES, chosen)
    ensures VoteFits(current, desired) <==> chosen == {} || Fits(current.Keys + chosen)
  {
    hide FirstOf, Differing, Fits;
    forall other | FirstOf(Differing(current, desired), MAX_UPDATES, other) ensures other == chosen {
      FirstOfUnique(Differing(current, desired), MAX_UPDATES, other, chosen);
    }
  }

  /** The same counted: the committed channels and the new ones among the vote. */
  lemma VoteFitsIff(current: Definitions, desired: Definitions, chosen: set<ChannelID>)
    requires FirstOf(Differing(current, desired), MAX_UPDATES, chosen)
    ensures VoteFits(current, desired) <==> chosen == {} || |current| + |chosen - current.Keys| <= MAX_CHANNELS
  {
    hide FirstOf, Differing, VoteFits;
    VoteFitsFor(current, desired, chosen);
    assert current.Keys + chosen == current.Keys + (chosen - current.Keys);
    assert |current| == |current.Keys|;
  }

  lemma RoomAfterRemovals(keys: set<ChannelID>, removed: set<ChannelID>, chosen: set<ChannelID>, more: set<ChannelID>)
    requires removed <= keys && removed !! chosen && |more| <= |removed|
    requires Fits(keys + chosen)
    ensures Fits(keys - removed + chosen + more)
  {
    assert keys - removed + chosen == (keys + chosen) - removed;
    UnionSize((keys + chosen) - removed, more);
    assert keys + chosen == ((keys + chosen) - removed) + removed;
  }

  lemma UnionSize(a: set<ChannelID>, b: set<ChannelID>)
    ensures |a + b| <= |a| + |b|
  {
    assert a + b == a + (b - a);
    SubsetSize(b - a, b);
  }

  /** While five channels are removed each round the merged set cannot grow, and then it
      lies within the desired one, whatever the next vote is. */
  lemma MoreFits(
    current: Definitions, desired: Definitions, removed: set<ChannelID>, chosen: set<ChannelID>, more: set<ChannelID>)
    requires FirstOf(Extra(current, desired), MAX_REMOVALS, removed) && |desired| <= MAX_CHANNELS
    requires chosen <= desired.Keys && more <= desired.Keys && |more| <= MAX_UPDATES && Fits(current.Keys + chosen)
    ensures Fits(current.Keys - removed + chosen + more)
  {
    hide FirstOf, Fits;
    var extra := Extra(current, desired);
    FirstOfSubset(extra, MAX_REMOVALS, removed);
    if removed == extra {
      WithinDesired(current, desired, chosen, more);
    } else {
      AllRemovals(extra, removed);
      RoomAfterRemovals(current.Keys, removed, chosen, more);
    }
  }

  lemma AllRemovals(extra: set<ChannelID>, removed: set<ChannelID>)
    requires FirstOf(extra, MAX_REMOVALS, removed) && removed != extra
    ensures |removed| == MAX_REMOVALS
  {
    if |removed| != MAX_REMOVALS { SameSizeSubset(removed, extra); }
  }

  lemma WithinDesired(current: Definitions, desired: Definitions, chosen: set<ChannelID>, more: set<ChannelID>)
    requires |desired| <= MAX_CHANNELS && chosen <= desired.Keys && more <= desired.Keys
    ensures Fits(current.Keys - Extra(current, desired) + chosen + more)
  {
    hide Fits;
    DesiredFits(desired);
    SubsetFits(current.Keys - Extra(current, desired) + chosen + more, desired.Keys);
  }

  lemma DesiredFits(desired: Definitions)
    requires |desired| <= MAX_CHANNELS
    ensures Fits(desired.Keys)
  {
    assert |desired.Keys| == |desired|;
  }

  lemma FirstOfSize(s: set<ChannelID>, limit: nat, r: set<ChannelID>)
    requires FirstOf(s, limit, r)
    ensures |r| == Min(|s|, limit) && (s != {} && limit > 0 ==> r != {})
  {
  }

  lemma DecisionFits(current: Definitions, desired: Definitions, d: Decision)
    requires DecidesFor(current, desired, d) && VoteFits(current, desired)
    ensures VotedIn(d.winners) == {} || Fits(current.Keys - d.removed + VotedIn(d.winners))
  {
    hide VotedIn, AsDesired, FirstOf, Fits;
    var chosen := VotedIn(d.winners);
    if chosen != {} {
      SubsetFits(current.Keys - d.removed + chosen, current.Keys + chosen);
    }
  }

  lemma MergedFits(current: Definitions, updates: Definitions)
    ensures Fits(current.Keys + updates.Keys) <==> |current + updates| <= MAX_CHANNELS
    ensures updates.Keys == {} <==> updates == map[]
    ensures |updates| == |updates.Keys|
  {
    assert (current + updates).Keys == current.Keys + updates.Keys;
    assert |(current + updates).Keys| == |current + updates|;
  }

  lemma HonestVote(current: Definitions, desired: Definitions) returns (o: Observation)
    ensures VotesFor(current, desired, o)
  {
    hide FirstOf, Extra;
    var removed := FirstOfExists(Extra(current, desired), MAX_REMOVALS);
    var chosen := FirstOfExists(Differing(current, desired), MAX_UPDATES);
    FirstOfSubset(Differing(current, desired), MAX_UPDATES, chosen);
    o := Observation(None, false, 0, removed, map c | c in chosen :: desired[c]);
    assert o.updates.Keys == chosen;
  }

  // ---------------------------------------------------------- votes that fail

  /** At the cap, replacing any channel by another is rejected although the desired set
      fits: the honest vote to add is dropped together with the vote to remove. */
  lemma ReplacingAtTheCapIsRejected(
    rules: Rules, current: Definitions, gone: ChannelID, added: ChannelID, cd: Definition, o: Observation)
    requires |current| == MAX_CHANNELS && gone in current && added !in current
    requires VotesFor(current, (current - {gone})[added := cd], o)
    ensures |(current - {gone})[added := cd]| == MAX_CHANNELS
    ensures o.removals == {gone} && o.updates == map[added := cd] && !Accepted(rules, current, o)
  {
    hide FirstOf;
    ReplacedParts(current, gone, added, cd);
    SingleFirst(gone, MAX_REMOVALS, o.removals);
    SingleFirst(added, MAX_UPDATES, o.updates.Keys);
    assert o.updates[added] == cd;
    assert (current + o.updates).Keys == current.Keys + {added};
  }

  lemma ReplacedParts(current: Definitions, gone: ChannelID, added: ChannelID, cd: Definition)
    requires gone in current && added !in current
    ensures var desired := (current - {gone})[added := cd];
            Extra(current, desired) == {gone} && Differing(current, desired) == {added} && |desired| == |current|
  {
    var desired := (current - {gone})[added := cd];
    assert desired.Keys == (current.Keys - {gone}) + {added};
  }

  lemma SingleFirst(c: ChannelID, limit: nat, r: set<ChannelID>)
    requires FirstOf({c}, limit, r) && limit > 0
    ensures r == {c}
  {
    SameSizeSubset(r, {c});
  }

  /** At the limit of stream IDs, a vote with one more is rejected even if the removal it
      comes with would make room. */
  lemma NewStreamAtTheLimitIsRejected(rules: Rules, current: Definitions, o: Observation, c: ChannelID, id: StreamID)
    requires |StreamIDs(current)| == MAX_STREAM_IDS && o.updates.Keys !! current.Keys
    requires c in o.updates && Lists(o.updates[c], id) && id !in StreamIDs(current)
    ensures !Accepted(rules, current, o)
  {
    hide StreamIDs, Lists, ChannelOk;
    var merged := current + o.updates;
    ListedIDs(merged, id);
    assert merged[c] == o.updates[c];
    KeepsStreamIDs(current, o.updates);
    SubsetSize(StreamIDs(current) + {id}, StreamIDs(merged));
  }

  lemma KeepsStreamIDs(current: Definitions, updates: Definitions)
    requires updates.Keys !! current.Keys
    ensures StreamIDs(current) <= StreamIDs(current + updates)
  {
    hide StreamIDs, Lists;
    forall s | s in StreamIDs(current) ensures s in StreamIDs(current + updates) {
      ListedIDs(current, s);
      var k :| k in current && Lists(current[k], s);
      assert (current + updates)[k] == current[k];
      ListedIDs(current + updates, s);
    }
  }

  /** A batch with a backfill whose target is neither committed nor among the five lowest
      differing channels is rejected. */
  lemma TargetBehindTheBatchIsRejected(
    rules: Rules, current: Definitions, desired: Definitions, o: Observation, c: ChannelID, t: ChannelID)
    requires VotesFor(current, desired, o) && c in o.updates && IsBackfill(o.updates[c])
    requires rules.target(o.updates[c]) == Some(t)
    requires t !in current && |set x | x in Differing(current, desired) && x < t| >= MAX_UPDATES
    ensures !Accepted(rules, current, o)
  {
    hide Differing, OwnChecks, StreamIDs;
    BehindTheFirst(Differing(current, desired), MAX_UPDATES, o.updates.Keys, t);
    assert (current + o.updates)[c] == o.updates[c];
  }

  lemma BehindTheFirst(s: set<ChannelID>, limit: nat, r: set<ChannelID>, t: ChannelID)
    requires FirstOf(s, limit, r) && |set x | x in s && x < t| >= limit
    ensures t !in r
  {
    var lower := set x | x in s && x < t;
    if t in r {
      assert lower + {t} <= r by {
        forall x | x in lower ensures x in r {
          assert x in s - r ==> t < x;
        }
      }
      SubsetSize(lower + {t}, r);
    }
  }

  /** Removing a target before its backfill strands the backfill: from then on every vote
      that adds or changes a channel is rejected. */
  lemma StrandedBackfillIsRejected(rules: Rules, current: Definitions, o: Observation, c: ChannelID, t: ChannelID)
    requires c in current && IsBackfill(current[c]) && rules.target(current[c]) == Some(t) && t !in current
    requires c !in o.updates && t !in o.updates && o.updates != map[]
    ensures !Accepted(rules, current, o)
  {
    hide OwnChecks, StreamIDs;
    assert (current + o.updates)[c] == current[c];
  }
}
