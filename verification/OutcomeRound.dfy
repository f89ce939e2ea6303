/** One round of the OCR3.0 plugin, from observations to outcome
    (llo/v30/plugin_outcome.go). */
module OutcomeRounds {
  import opened Collections
  import opened Medians
  import opened Tallies
  import opened Outcomes
  import opened OutcomeRuns
  import opened Backfills
  import opened Votes

  /** What a round's stream values gave: which pairs have an aggregate, and which
      expression channels were evaluated. */
  datatype Valued = Valued(aggregates: set<Stream>, evaluated: set<ChannelID>)

  // ---------------------------------------------------------------- decisions

  predicate WinnerLeq(a: Winner, b: Winner) { a.id < b.id || (a.id == b.id && a.hash <= b.hash) }

  /** The voted definitions by channel ID, competing ones by hash. */
  ghost predicate Ordered(ordered: seq<Winner>, updates: map<nat, Winner>) {
    && SortedBy(ordered, WinnerLeq) && NoDuplicates(ordered)
    && forall w :: w in ordered <==> w.hash in updates && updates[w.hash] == w
  }

  /** Those with more than `f` votes. */
  function Elected(ordered: seq<Winner>, votes: multiset<nat>, f: nat): seq<Winner> {
    if ordered == [] then []
    else
      Elected(ordered[..|ordered| - 1], votes, f) +
      if votes[ordered[|ordered| - 1].hash] > f then [ordered[|ordered| - 1]] else []
  }

  /** The decision a round's votes lead to. */
  ghost predicate Decided(config: Config, v: Votes, valued: Valued, d: Decision) {
    && v.timestamps != [] && d.observedAt == MiddleTime(v.timestamps)
    && d.report == v.report
    && d.retire == (v.retireVotes > config.f)
    && (forall c: ChannelID :: c in d.removed <==> v.removeVotes[c] > config.f)
    && (exists ordered :: Ordered(ordered, v.updates) && d.winners == Elected(ordered, v.updateVotes, config.f))
    && d.aggregates == valued.aggregates && d.evaluated == valued.evaluated
  }

  lemma OrderedUnique(a: seq<Winner>, b: seq<Winner>, updates: map<nat, Winner>)
    requires Ordered(a, updates) && Ordered(b, updates)
    ensures a == b
  {
    SortedIsCanonical(a, b, WinnerLeq);
  }

  /** The votes determine the decision, whatever order maps are drained in. */
  lemma DecisionIsDetermined(config: Config, v: Votes, valued: Valued, d: Decision, e: Decision)
    requires Decided(config, v, valued, d) && Decided(config, v, valued, e)
    ensures d == e
  {
    hide Ordered, MiddleTime;
    var x :| Ordered(x, v.updates) && d.winners == Elected(x, v.updateVotes, config.f);
    var y :| Ordered(y, v.updates) && e.winners == Elected(y, v.updateVotes, config.f);
    OrderedUnique(x, y, v.updates);
    assert d.removed == e.removed;
  }

  /** With a collision-free hash the observations determine the votes. */
  lemma VotesAreDetermined(config: Config, hash: Hash, verify: Verifier, aos: Attributed, v: Votes, w: Votes)
    requires Identifies(hash, config.version) && Tallied(config, hash, verify, aos, v)
    requires Tallied(config, hash, verify, aos, w)
    ensures v == w
  {
    hide Count, Timestamps, FirstReport, UpdateCount, Recorded;
    assert v.removeVotes == w.removeVotes;
    assert v.updateVotes == w.updateVotes;
    forall h: nat | h in v.updates ensures h in w.updates && v.updates[h] == w.updates[h] {
      RecordedUnique(config, hash, aos, v.updates[h], w.updates[h], h);
    }
    assert v.updates.Keys == w.updates.Keys;
  }

  lemma RecordedUnique(config: Config, hash: Hash, aos: Attributed, a: Winner, b: Winner, h: nat)
    requires Identifies(hash, config.version) && Recorded(hash, aos, a, h) && Recorded(hash, aos, b, h)
    ensures a == b
  {
    hide Hashed;
    var i :| 0 <= i < |aos| && RecordedAt(hash, aos, a, h, i);
    var j :| 0 <= j < |aos| && RecordedAt(hash, aos, b, h, j);
    assert a.id in Matching(hash, aos[i].value.updates, h) && b.id in Matching(hash, aos[j].value.updates, h);
    assert VotesUnder(hash, aos[i], h) && VotesUnder(hash, aos[j], h);
  }

  lemma {:induction false} ElectedMembers(ordered: seq<Winner>, votes: multiset<nat>, f: nat, w: Winner)
    ensures w in Elected(ordered, votes, f) <==> w in ordered && votes[w.hash] > f
  {
    if ordered != [] {
      ElectedMembers(ordered[..|ordered| - 1], votes, f, w);
      assert ordered == ordered[..|ordered| - 1] + [ordered[|ordered| - 1]];
    }
  }

  // -------------------------------------------------------------------- safety

  /** With at most `f` faulty oracles, no instance is retired, no channel removed and no
      definition elected without an honest vote for that; for a definition as far as the
      vote identity tells, which from version 2 on is all of it. */
  lemma HonestVotesBehindDecisions(
    config: Config, hash: Hash, verify: Verifier, aos: Attributed, v: Votes, valued: Valued, d: Decision,
    faulty: set<nat>)
    requires Tallied(config, hash, verify, aos, v) && Decided(config, v, valued, d)
    requires Identifies(hash, config.version) && |faulty| <= config.f
    ensures d.retire ==> exists i :: 0 <= i < |aos| && i !in faulty && Retires(aos[i])
    ensures forall c :: c in d.removed ==> exists i :: 0 <= i < |aos| && i !in faulty && RemovalOf(c)(aos[i])
    ensures forall w :: w in d.winners ==> HonestlyVoted(config, aos, faulty, w.id, w.definition)
  {
    hide Count, MiddleTime, Timestamps, FirstReport, UpdateCount, Ordered, Hashed;
    if d.retire { HonestVoter(aos, Retires, faulty, config.f); }
    forall c | c in d.removed ensures exists i :: 0 <= i < |aos| && i !in faulty && RemovalOf(c)(aos[i]) {
      HonestVoter(aos, RemovalOf(c), faulty, config.f);
    }
    forall w | w in d.winners ensures HonestlyVoted(config, aos, faulty, w.id, w.definition) {
      WinnerVotes(config, hash, aos, v, d.winners, w);
      HonestVoter(aos, UpdateLike(config.version, w.id, w.definition), faulty, config.f);
    }
  }

  ghost predicate HonestlyVoted(config: Config, aos: Attributed, faulty: set<nat>, c: ChannelID, cd: Definition) {
    exists i :: 0 <= i < |aos| && i !in faulty && UpdateLike(config.version, c, cd)(aos[i])
  }

  lemma WinnerVotes(config: Config, hash: Hash, aos: Attributed, v: Votes, winners: seq<Winner>, w: Winner)
    requires UpdatesTallied(hash, aos, v.updates, v.updateVotes) && Identifies(hash, config.version) && w in winners
    requires exists ordered :: Ordered(ordered, v.updates) && winners == Elected(ordered, v.updateVotes, config.f)
    ensures Count(aos, UpdateLike(config.version, w.id, w.definition)) > config.f
  {
    hide Count, UpdateCount, Hashed;
    var ordered :| Ordered(ordered, v.updates) && winners == Elected(ordered, v.updateVotes, config.f);
    ElectedMembers(ordered, v.updateVotes, config.f, w);
    assert Recorded(hash, aos, v.updates[w.hash], w.hash);
    HashVotesAreExact(hash, config.version, aos, w.id, w.definition);
  }

  lemma {:induction false} InstalledFrom(defs: map<ChannelID, Definition>, winners: seq<Winner>, c: ChannelID)
    ensures c in InstallAll(defs, winners) ==>
              || (c in defs && InstallAll(defs, winners)[c] == defs[c])
              || exists w :: w in winners && w.id == c && w.definition == InstallAll(defs, winners)[c]
    ensures c in defs ==> c in InstallAll(defs, winners)
  {
    if winners != [] {
      var n := |winners| - 1;
      InstalledFrom(defs, winners[..n], c);
      assert winners == winners[..n] + [winners[n]];
      assert winners[n] in winners;
    }
  }

  /** Whatever changes between two outcomes had an honest vote: a channel that is gone, a
      retirement, and a definition that was not there, up to the calculated streams that
      evaluation appends to what was voted or committed before. */
  lemma HonestVotesBehindChanges(
    config: Config, hash: Hash, verify: Verifier, aos: Attributed, v: Votes, valued: Valued, d: Decision,
    prev: Outcome, faulty: set<nat>, c: ChannelID)
    requires Tallied(config, hash, verify, aos, v) && Decided(config, v, valued, d)
    requires Identifies(hash, config.version) && |faulty| <= config.f
    ensures c in NextDefinitions(config, prev, d) ==>
              exists cd :: VotedOrCommitted(config, aos, faulty, prev, c, cd) &&
                  IsCommittedAs(config, d, c, cd, NextDefinitions(config, prev, d)[c])
    ensures c in prev.definitions && c !in NextDefinitions(config, prev, d) ==>
              exists i :: 0 <= i < |aos| && i !in faulty && RemovalOf(c)(aos[i])
    ensures NextStage(prev, d).Retired? && !prev.stage.Retired? ==>
              exists i :: 0 <= i < |aos| && i !in faulty && Retires(aos[i])
  {
    hide Tallied, Decided, Identifies, InstallAll, WithCalculated, Hashed;
    HonestVotesBehindDecisions(config, hash, verify, aos, v, valued, d, faulty);
    InstalledFrom(prev.definitions - d.removed, d.winners, c);
    if c in NextDefinitions(config, prev, d) {
      var cd := VotedDefinitions(prev, d)[c];
      assert VotedOrCommitted(config, aos, faulty, prev, c, cd) &&
          IsCommittedAs(config, d, c, cd, NextDefinitions(config, prev, d)[c]);
    }
  }

  /** The definition was committed before, or an honest oracle votes for it. */
  ghost predicate VotedOrCommitted(
    config: Config, aos: Attributed, faulty: set<nat>, prev: Outcome, c: ChannelID, cd: Definition)
  {
    (c in prev.definitions && prev.definitions[c] == cd) || HonestlyVoted(config, aos, faulty, c, cd)
  }

  predicate IsCommittedAs(config: Config, d: Decision, c: ChannelID, cd: Definition, committed: Definition) {
    committed == if c in d.evaluated then WithCalculated(config, cd) else cd
  }

  // ---------------------------------------------------------- what is installed

  lemma {:induction false} InstallConcat(defs: map<ChannelID, Definition>, a: seq<Winner>, b: seq<Winner>)
    ensures InstallAll(defs, a + b) == InstallAll(InstallAll(defs, a), b)
    decreases |b|
  {
    if b == [] {
      assert a + b == a;
    } else {
      var n := |b| - 1;
      assert (a + b)[..|a + b| - 1] == a + b[..n];
      InstallConcat(defs, a, b[..n]);
    }
  }

  lemma {:induction false} FullStaysClosed(defs: map<ChannelID, Definition>, winners: seq<Winner>, c: ChannelID)
    requires c !in defs && |defs| >= MAX_CHANNELS
    ensures c !in InstallAll(defs, winners) && InstallAll(defs, winners).Keys == defs.Keys
  {
    if winners != [] {
      FullStaysClosed(defs, winners[..|winners| - 1], c);
      SameSize(InstallAll(defs, winners[..|winners| - 1]), defs);
    }
  }

  ghost predicate ByID(winners: seq<Winner>) {
    forall i, j :: 0 <= i < j < |winners| ==>
      winners[i].id < winners[j].id || (winners[i].id == winners[j].id && winners[i].hash <= winners[j].hash)
  }

  function LowerIDs(winners: seq<Winner>, c: ChannelID): set<ChannelID> { set w | w in winners && w.id < c :: w.id }

  lemma LowerAreBefore(winners: seq<Winner>, i: nat)
    requires ByID(winners) && i < |winners| && forall j :: 0 <= j < i ==> winners[j].id != winners[i].id
    ensures VotedIn(winners[..i]) == LowerIDs(winners, winners[i].id)
  {
    var c := winners[i].id;
    forall id | id in VotedIn(winners[..i]) ensures id in LowerIDs(winners, c) {
      var w :| w in winners[..i] && w.id == id;
      var j :| 0 <= j < i && winners[j] == w;
      assert w in winners;
    }
    forall id | id in LowerIDs(winners, c) ensures id in VotedIn(winners[..i]) {
      var w :| w in winners && w.id < c && w.id == id;
      var j :| 0 <= j < |winners| && winners[j] == w;
      assert j < i;
      assert winners[..i][j] == w;
    }
  }

  /** A new channel is installed exactly when the channels that stay and the elected ones
      with lower IDs leave room for it. */
  lemma NewInstalledIff(defs: map<ChannelID, Definition>, winners: seq<Winner>, c: ChannelID)
    requires ByID(winners) && c !in defs
    ensures c in InstallAll(defs, winners) <==>
            c in VotedIn(winners) && |defs.Keys + LowerIDs(winners, c)| < MAX_CHANNELS
  {
    hide InstallAll, LowerIDs, VotedIn, ByID;
    if c in VotedIn(winners) {
      var i := FirstWith(winners, c);
      LowerAreBefore(winners, i);
      PlacedOrNever(defs, winners, i);
    } else {
      InstalledKeys(defs, winners);
    }
  }

  lemma FirstWith(winners: seq<Winner>, c: ChannelID) returns (i: nat)
    requires c in VotedIn(winners)
    ensures i < |winners| && winners[i].id == c && forall j :: 0 <= j < i ==> winners[j].id != c
  {
    i := 0;
    var w :| w in winners && w.id == c;
    var k :| 0 <= k < |winners| && winners[k] == w;
    while winners[i].id != c
      invariant i <= k && forall j :: 0 <= j < i ==> winners[j].id != c
      decreases k - i
    {
      i := i + 1;
    }
  }

  lemma PlacedOrNever(defs: map<ChannelID, Definition>, winners: seq<Winner>, i: nat)
    requires i < |winners| && winners[i].id !in defs && forall j :: 0 <= j < i ==> winners[j].id != winners[i].id
    ensures winners[i].id in InstallAll(defs, winners) <==> |defs.Keys + VotedIn(winners[..i])| < MAX_CHANNELS
  {
    hide VotedIn, InstallAll;
    var c, known := winners[i].id, defs.Keys + VotedIn(winners[..i]);
    var before := InstallAll(defs, winners[..i]);
    assert c !in known by { NotVotedIn(winners, i); }
    InstalledKeys(defs, winners[..i]);
    assert |before| == |before.Keys|;
    assert winners == winners[..i] + winners[i..];
    InstallConcat(defs, winners[..i], winners[i..]);
    if |known| < MAX_CHANNELS {
      assert |before| < MAX_CHANNELS;
      PlacedFirst(before, winners[i..]);
    } else {
      FullStaysClosed(before, winners[i..], c);
    }
  }

  lemma PlacedFirst(defs: map<ChannelID, Definition>, winners: seq<Winner>)
    requires winners != [] && |defs| < MAX_CHANNELS
    ensures winners[0].id in InstallAll(defs, winners)
  {
    InstallConcat(defs, [winners[0]], winners[1..]);
    assert winners == [winners[0]] + winners[1..];
    assert [winners[0]][..0] == [];
    InstalledFrom(InstallAll(defs, [winners[0]]), winners[1..], winners[0].id);
  }

  lemma NotVotedIn(winners: seq<Winner>, i: nat)
    requires i < |winners| && forall j :: 0 <= j < i ==> winners[j].id != winners[i].id
    ensures winners[i].id !in VotedIn(winners[..i])
  {
  }

  /** Of several elected definitions of one channel the last one is installed. */
  lemma {:induction false} LastInstalled(defs: map<ChannelID, Definition>, winners: seq<Winner>, c: ChannelID)
    returns (i: nat)
    requires c in VotedIn(winners) && c in InstallAll(defs, winners)
    ensures i < |winners| && winners[i].id == c && InstallAll(defs, winners)[c] == winners[i].definition
    ensures forall j :: i < j < |winners| ==> winners[j].id != c
    decreases |winners|
  {
    var n := |winners| - 1;
    if winners[n].id == c {
      i := n;
    } else {
      VotedInNext(winners);
      i := LastInstalled(defs, winners[..n], c);
    }
  }

  /** A definition of channel `c` was recorded under hash `h` and has more than `f` votes. */
  ghost predicate HasWon(config: Config, v: Votes, h: nat, c: ChannelID) {
    h in v.updates && v.updates[h].id == c && v.updateVotes[h] > config.f
  }

  lemma {:induction false} ElectedInOrder(ordered: seq<Winner>, votes: multiset<nat>, f: nat)
    requires SortedBy(ordered, WinnerLeq)
    ensures ByID(Elected(ordered, votes, f))
  {
    if ordered != [] {
      var n := |ordered| - 1;
      ElectedInOrder(ordered[..n], votes, f);
      var earlier := Elected(ordered[..n], votes, f);
      forall i | 0 <= i < |earlier| ensures WinnerLeq(earlier[i], ordered[n]) {
        ElectedMembers(ordered[..n], votes, f, earlier[i]);
        var j :| 0 <= j < n && ordered[..n][j] == earlier[i];
        assert WinnerLeq(ordered[j], ordered[n]);
      }
    }
  }

  lemma WinnersWon(config: Config, v: Votes, valued: Valued, d: Decision)
    requires Decided(config, v, valued, d) && forall h :: h in v.updates ==> v.updates[h].hash == h
    ensures ByID(d.winners)
    ensures forall w :: w in d.winners <==> HasWon(config, v, w.hash, w.id) && v.updates[w.hash] == w
  {
    hide MiddleTime, SortedBy, ByID;
    var ordered :| Ordered(ordered, v.updates) && d.winners == Elected(ordered, v.updateVotes, config.f);
    ElectedInOrder(ordered, v.updateVotes, config.f);
    forall w { ElectedMembers(ordered, v.updateVotes, config.f, w); }
  }

  /** The channels with a lower ID that won. */
  ghost function WonBelow(config: Config, v: Votes, c: ChannelID): set<ChannelID> {
    set h | h in v.updates && HasWon(config, v, h, v.updates[h].id) && v.updates[h].id < c :: v.updates[h].id
  }

  /** What a round's votes make of a channel. One that stays is changed to its winning
      definition, the one with the highest hash if several won; one that is not there, or
      is removed, is added if it won and 2000 is not reached by those that stay and those
      with lower IDs that won. */
  lemma VotesInstall(
    config: Config, hash: Hash, verify: Verifier, aos: Attributed, v: Votes, valued: Valued, d: Decision,
    prev: Outcome, c: ChannelID)
    requires Tallied(config, hash, verify, aos, v) && Decided(config, v, valued, d) && !NextStage(prev, d).Retired?
    ensures var next, won := VotedDefinitions(prev, d), exists h :: HasWon(config, v, h, c);
            && (c in next <==>
                  || (c in prev.definitions && v.removeVotes[c] <= config.f)
                  || (won && |(prev.definitions.Keys - d.removed) + WonBelow(config, v, c)| < 2000))
            && (c in next && !won ==> next[c] == prev.definitions[c])
            && (c in next && won ==>
                  exists h :: HasWon(config, v, h, c) && next[c] == v.updates[h].definition
                    && forall g :: HasWon(config, v, g, c) ==> g <= h)
  {
    hide Tallied, InstallAll, VotedIn, LowerIDs, ByID, HasWon, NextStage, WonBelow, Ordered, MiddleTime;
    VotesFacts(config, hash, verify, aos, v);
    WinnersWon(config, v, valued, d);
    var defs := prev.definitions - d.removed;
    assert defs.Keys == prev.definitions.Keys - d.removed;
    WonIsVotedIn(config, v, d, c);
    InstalledFrom(defs, d.winners, c);
    if c !in defs { NewInstalledIff(defs, d.winners, c); }
    if c in VotedDefinitions(prev, d) && c in VotedIn(d.winners) {
      var i := LastInstalled(defs, d.winners, c);
      LastIsHighest(config, v, d, c, i);
    }
  }

  lemma WonIsVotedIn(config: Config, v: Votes, d: Decision, c: ChannelID)
    requires forall w :: w in d.winners <==> HasWon(config, v, w.hash, w.id) && v.updates[w.hash] == w
    requires forall h :: h in v.updates ==> v.updates[h].hash == h
    ensures c in VotedIn(d.winners) <==> exists h :: HasWon(config, v, h, c)
    ensures LowerIDs(d.winners, c) == WonBelow(config, v, c)
    ensures c !in VotedIn(d.winners) ==> forall w :: w in d.winners ==> w.id != c
  {
    if h :| HasWon(config, v, h, c) {
      assert v.updates[h] in d.winners;
    }
    forall id | id in WonBelow(config, v, c) ensures id in LowerIDs(d.winners, c) {
      var h :| h in v.updates && HasWon(config, v, h, v.updates[h].id) && v.updates[h].id < c && v.updates[h].id == id;
      assert v.updates[h] in d.winners;
    }
    forall id | id in LowerIDs(d.winners, c) ensures id in WonBelow(config, v, c) {
      var w :| w in d.winners && w.id < c && w.id == id;
      assert w.hash in v.updates && v.updates[w.hash].id == id;
    }
  }

  lemma LastIsHighest(config: Config, v: Votes, d: Decision, c: ChannelID, i: nat)
    requires ByID(d.winners) && i < |d.winners| && d.winners[i].id == c
    requires forall j :: i < j < |d.winners| ==> d.winners[j].id != c
    requires forall w :: w in d.winners <==> HasWon(config, v, w.hash, w.id) && v.updates[w.hash] == w
    requires forall h :: h in v.updates ==> v.updates[h].hash == h
    ensures HasWon(config, v, d.winners[i].hash, c) && v.updates[d.winners[i].hash] == d.winners[i]
    ensures forall g: nat :: HasWon(config, v, g, c) ==> g <= d.winners[i].hash
  {
    assert d.winners[i] in d.winners;
    forall g: nat | HasWon(config, v, g, c) ensures g <= d.winners[i].hash {
      assert v.updates[g] in d.winners;
      var j :| 0 <= j < |d.winners| && d.winners[j] == v.updates[g];
    }
  }

  /** More than `f` votes for a definition elect it, as the last of its voters wrote it. */
  lemma CountedWins(
    config: Config, hash: Hash, aos: Attributed, v: Votes, winners: seq<Winner>, c: ChannelID, cd: Definition)
    returns (w: Winner)
    requires UpdatesTallied(hash, aos, v.updates, v.updateVotes) && Identifies(hash, config.version)
    requires Count(aos, UpdateLike(config.version, c, cd)) > config.f
    requires exists ordered :: Ordered(ordered, v.updates) && winners == Elected(ordered, v.updateVotes, config.f)
    ensures w in winners && w.id == c && Hashed(config.version, w.definition) == Hashed(config.version, cd)
    ensures Recorded(hash, aos, w, hash(c, cd))
  {
    hide Count, UpdateCount, Hashed;
    HashVotesAreExact(hash, config.version, aos, c, cd);
    var h := hash(c, cd);
    assert v.updateVotes[h] > config.f;
    assert Recorded(hash, aos, v.updates[h], h);
    var ordered :| Ordered(ordered, v.updates) && winners == Elected(ordered, v.updateVotes, config.f);
    w := v.updates[h];
    ElectedMembers(ordered, v.updateVotes, config.f, w);
  }

  /** In versions 0 and 1 the last oracle, faulty or not, decides the fields the vote
      identity leaves out: however many vote for a live channel, its tombstone wins. */
  lemma LastVoterDecides(
    config: Config, hash: Hash, verify: Verifier, aos: Attributed, v: Votes, valued: Valued, d: Decision, c: ChannelID,
    cd: Definition)
    requires Tallied(config, hash, verify, aos, v) && Decided(config, v, valued, d) && Identifies(hash, config.version)
    requires config.version < 2 && aos != [] && UpdateTo(c, cd.(tombstone := true))(aos[|aos| - 1])
    requires Count(aos, UpdateLike(config.version, c, cd)) > config.f
    ensures exists w :: w in d.winners && w.id == c && w.definition == cd.(tombstone := true)
  {
    hide Count, UpdateCount, MiddleTime, Timestamps, FirstReport, Ordered, Recorded, Elected, VotesUnder;
    var w := CountedWins(config, hash, aos, v, d.winners, c, cd);
    LastIsRecorded(config, hash, aos, w, c, cd);
  }

  lemma LastIsRecorded(config: Config, hash: Hash, aos: Attributed, w: Winner, c: ChannelID, cd: Definition)
    requires Identifies(hash, config.version) && config.version < 2 && w.id == c && Recorded(hash, aos, w, hash(c, cd))
    requires aos != [] && UpdateTo(c, cd.(tombstone := true))(aos[|aos| - 1])
    ensures w.definition == cd.(tombstone := true)
  {
    var h, n := hash(c, cd), |aos| - 1;
    assert hash(c, cd.(tombstone := true)) == h;
    assert c in Matching(hash, aos[n].value.updates, h);
    assert VotesUnder(hash, aos[n], h);
    var i :| 0 <= i < |aos| && RecordedAt(hash, aos, w, h, i);
  }

  /** A channel with more than `f` votes to remove it and more than `f` to install it ends
      the round defined but without a watermark. */
  lemma VotedBothWays(
    config: Config, hash: Hash, verify: Verifier, aos: Attributed, v: Votes, valued: Valued, d: Decision,
    prev: Outcome, next: Outcome, c: ChannelID, cd: Definition)
    requires Tallied(config, hash, verify, aos, v) && Decided(config, v, valued, d) && Identifies(hash, config.version)
    requires IsStep(config, prev, d, next) && !NextStage(prev, d).Retired? && AllFit(prev, d)
    requires Count(aos, RemovalOf(c)) > config.f && Count(aos, UpdateTo(c, cd)) > config.f
    ensures c in d.removed && c in next.definitions && c !in next.validAfter
  {
    hide Count, Timestamps, FirstReport, MiddleTime, UpdatesTallied, Ordered, AllFit, IsStep, NextStage,
      VotedDefinitions, Hashed, Recorded;
    assert c in d.removed;
    CountWeaker(aos, UpdateTo(c, cd), UpdateLike(config.version, c, cd));
    var w := CountedWins(config, hash, aos, v, d.winners, c, cd);
    ReturnedIsUncovered(config, prev, d, next, w);
  }

  lemma ReturnedIsUncovered(config: Config, prev: Outcome, d: Decision, next: Outcome, w: Winner)
    requires IsStep(config, prev, d, next) && !NextStage(prev, d).Retired? && AllFit(prev, d) && w in d.winners
    requires w.id in d.removed
    ensures w.id in next.definitions && w.id !in next.validAfter
  {
    hide Encodable, InstallAll, NextStage, BaseWatermarks, Stamp, VotedIn, Appended;
    var defs := prev.definitions - d.removed;
    assert defs.Keys == prev.definitions.Keys - d.removed;
    InstalledKeys(defs, d.winners);
    AppendedKeys(config, VotedDefinitions(prev, d), d.evaluated);
    assert w.id in VotedIn(d.winners) by { WinnerID(d.winners, w); }
  }

  lemma WinnerID(winners: seq<Winner>, w: Winner)
    requires w in winners
    ensures w.id in VotedIn(winners)
  {
  }

  /** Such votes exist for every `f`: half of 2f+2 oracles want the channel gone, half
      want it changed. */
  lemma SplitVote(f: nat, c: ChannelID, cd: Definition) returns (aos: Attributed)
    ensures |aos| == 2 * f + 2 && Count(aos, RemovalOf(c)) == f + 1 && Count(aos, UpdateTo(c, cd)) == f + 1
  {
    var remove := Some(Observation(None, false, 0, {c}, map[]));
    var change := Some(Observation(None, false, 0, {}, map[c := cd]));
    var removing, changing := seq(f + 1, i => remove), seq(f + 1, i => change);
    aos := removing + changing;
    CountConcat(removing, changing, RemovalOf(c));
    CountConcat(removing, changing, UpdateTo(c, cd));
    CountAll(removing, RemovalOf(c));
    CountNone(changing, RemovalOf(c));
    CountNone(removing, UpdateTo(c, cd));
    CountAll(changing, UpdateTo(c, cd));
  }

  // ---------------------------------------------------------------- the round

  method IsReportable(config: Config, out: Outcome, c: ChannelID) returns (ok: bool)
    ensures ok == Reportable(config, out, c)
    ensures c !in out.definitions ==> !ok
    ensures c in out.definitions ==>
              (ok <==> if out.definitions[c].format == HistoryBackfill then BackfillDue(config, out, c)
                  else ReportDue(config, out, c))
  {
    hide NextRow, AllPresent, IntervalOk, ReportDue, BackfillDue;
    if c in out.definitions {
      if out.definitions[c].format == HistoryBackfill { BackfillReportableIff(config, out, c); }
      else { ReportableIff(config, out, c); }
    }
    if out.stage.Retired? || c !in out.definitions || out.definitions[c].tombstone {
      return false;
    }
    var cd := out.definitions[c];
    if cd.format.HistoryBackfill? {
      if !out.stage.Production? {
        return false;
      }
      var candidate := SelectBackfillCandidate(config, out, c);
      return candidate.Some?;
    }
    if cd.disableNilStreamValues {
      var present := HasAll(cd, out.aggregates);
      if !present {
        return false;
      }
    }
    return c in out.validAfter && IntervalOk(config, cd, out.validAfter[c], out.observedAt);
  }

  method HasAll(cd: Definition, aggregates: set<Stream>) returns (ok: bool)
    ensures ok == AllPresent(cd, aggregates)
  {
    for i := 0 to |cd.streams|
      invariant forall j :: 0 <= j < i ==> cd.streams[j] in aggregates
    {
      if cd.streams[i] !in aggregates {
        assert cd.streams[i] in cd.streams;
        return false;
      }
    }
    ok := true;
  }

  /** The watermark a channel carries over from the previous round. */
  method Carry(config: Config, seen: Outcome, c: ChannelID) returns (t: nat)
    requires c in seen.validAfter
    ensures t == Carried(config, seen, c)
  {
    hide NextRow, KeyNanos, Reportable;
    if c in seen.definitions && seen.definitions[c].format.HistoryBackfill? {
      if !seen.stage.Production? {
        return seen.validAfter[c];
      }
      var candidate := SelectBackfillCandidate(config, seen, c);
      return if candidate.Some? then candidate.value.nanos else seen.validAfter[c];
    }
    var reported := IsReportable(config, seen, c);
    t := if reported then seen.observedAt else seen.validAfter[c];
  }

  method CarryAll(config: Config, prev: Outcome, seen: Outcome, ghost d: Decision) returns (base: map<ChannelID, nat>)
    requires !Inherits(prev, d) && seen == Seen(prev, d)
    ensures base == BaseWatermarks(config, prev, d)
  {
    hide Carried, Inherits, Seen, VotedDefinitions, BaseWatermarks;
    SeenKeeps(prev, d);
    base := map[];
    var todo := prev.validAfter.Keys;
    while todo != {}
      invariant forall c :: c in todo ==> c in prev.validAfter
      invariant forall c :: c in base <==> c in prev.validAfter && c !in todo
      invariant forall c :: c in base ==> base[c] == Carried(config, seen, c)
      decreases |todo|
    {
      var c :| c in todo;
      var t := Carry(config, seen, c);
      base, todo := base[c := t], todo - {c};
    }
    CarriedBase(config, prev, d, base);
  }

  lemma CarriedBase(config: Config, prev: Outcome, d: Decision, base: map<ChannelID, nat>)
    requires !Inherits(prev, d) && forall c :: c in base <==> c in prev.validAfter
    requires forall c :: c in base ==> c in Seen(prev, d).validAfter && base[c] == Carried(config, Seen(prev, d), c)
    ensures base == BaseWatermarks(config, prev, d)
  {
    hide Carried, Inherits;
    assert base.Keys == prev.validAfter.Keys;
  }

  lemma SeenKeeps(prev: Outcome, d: Decision)
    ensures Seen(prev, d).validAfter == prev.validAfter
  {
  }

  /** Gives new channels a watermark and drops those of removed ones. */
  method FillWatermarks(
    base: map<ChannelID, nat>, defs: map<ChannelID, Definition>, removed: set<ChannelID>, observedAt: nat)
    returns (r: map<ChannelID, nat>)
    ensures forall c :: c in r <==> (c in base || c in defs) && c !in removed
    ensures forall c :: c in r ==> r[c] == if c in base then base[c] else NewWatermark(defs[c], observedAt)
  {
    r := base;
    var todo := defs.Keys;
    while todo != {}
      invariant forall c :: c in todo ==> c in defs
      invariant forall c :: c in r <==> c in base || (c in defs && c !in todo)
      invariant forall c :: c in r ==> r[c] == if c in base then base[c] else NewWatermark(defs[c], observedAt)
      decreases |todo|
    {
      var c :| c in todo;
      if c !in r {
        r := r[c := NewWatermark(defs[c], observedAt)];
      }
      todo := todo - {c};
    }
    r := r - removed;
  }

  lemma NoneInstalled(defs: map<ChannelID, Definition>, ordered: seq<Winner>, votes: multiset<nat>, f: nat)
    ensures InstallAll(defs, Elected(ordered[..0], votes, f)) == defs
  {
  }

  lemma InstallNext(defs: map<ChannelID, Definition>, ordered: seq<Winner>, votes: multiset<nat>, f: nat, i: nat)
    requires i < |ordered|
    ensures var before := InstallAll(defs, Elected(ordered[..i], votes, f));
            InstallAll(defs, Elected(ordered[..i + 1], votes, f)) ==
            if votes[ordered[i].hash] > f then Install(before, ordered[i]) else before
  {
    hide Install;
    var before := Elected(ordered[..i], votes, f);
    assert ordered[..i + 1][..i] == ordered[..i];
    assert before + [] == before && (before + [ordered[i]])[..|before|] == before;
  }

  /** Installs the voted definitions in order, up to the maximum number of channels. */
  method InstallVoted(defs: map<ChannelID, Definition>, ordered: seq<Winner>, votes: multiset<nat>, f: nat)
    returns (r: map<ChannelID, Definition>)
    ensures r == InstallAll(defs, Elected(ordered, votes, f))
  {
    hide Elected, InstallAll;
    r := defs;
    NoneInstalled(defs, ordered, votes, f);
    for i := 0 to |ordered|
      invariant r == InstallAll(defs, Elected(ordered[..i], votes, f))
    {
      var w := ordered[i];
      InstallNext(defs, ordered, votes, f, i);
      if votes[w.hash] <= f {
        continue;
      }
      if w.id !in r && |r| >= MAX_CHANNELS {
        continue;
      }
      r := r[w.id := w.definition];
    }
    assert ordered[..|ordered|] == ordered;
  }

  /** The channels with more than `f` votes to remove them. */
  method CollectRemovals(votes: multiset<ChannelID>, f: nat) returns (removed: set<ChannelID>)
    ensures forall c: ChannelID :: c in removed <==> votes[c] > f
  {
    var todo := set c | c in votes;
    removed := {};
    while todo != {}
      invariant forall c: ChannelID :: c in removed <==> votes[c] > f && c !in todo
      invariant forall c: ChannelID :: c in todo ==> c in votes
      decreases |todo|
    {
      var c :| c in todo;
      if votes[c] > f {
        removed := removed + {c};
      }
      todo := todo - {c};
    }
  }

  method OrderUpdates(updates: map<nat, Winner>) returns (ordered: seq<Winner>)
    requires forall h :: h in updates ==> updates[h].hash == h
    ensures Ordered(ordered, updates)
  {
    hide SortedBy;
    var hashes := Drain(updates.Keys);
    var entries := Entries(updates, hashes);
    ordered := Sort(entries, WinnerLeq);
    SameElements(entries, ordered);
    PermutationKeepsNoDuplicates(entries, ordered);
  }

  method Entries(updates: map<nat, Winner>, hashes: seq<nat>) returns (entries: seq<Winner>)
    requires forall h :: h in updates ==> updates[h].hash == h
    requires NoDuplicates(hashes) && forall h :: h in hashes <==> h in updates
    ensures NoDuplicates(entries)
    ensures forall w :: w in entries <==> w.hash in updates && updates[w.hash] == w
  {
    entries := [];
    for i := 0 to |hashes|
      invariant |entries| == i && forall j :: 0 <= j < i ==> hashes[j] in updates && entries[j] == updates[hashes[j]]
    {
      assert hashes[i] in hashes;
      entries := entries + [updates[hashes[i]]];
    }
    forall w: Winner | w.hash in updates && updates[w.hash] == w ensures w in entries {
      assert w.hash in hashes;
      var j :| 0 <= j < |hashes| && hashes[j] == w.hash;
      assert entries[j] == w;
    }
  }

  datatype RoundError = TooFewObservations | NoValidObservations

  function SentUpTo(t: nat): Option<Observation> -> bool {
    (o: Option<Observation>) => o.Some? && o.value.timestamp <= t
  }

  function SentFrom(t: nat): Option<Observation> -> bool {
    (o: Option<Observation>) => o.Some? && t <= o.value.timestamp
  }

  /** The agreed time by counting the observations that decode. */
  lemma AgreedTimeByCounting(aos: Attributed)
    ensures Timestamps(aos) != [] <==> exists i :: 0 <= i < |aos| && aos[i].Some?
    ensures Timestamps(aos) != [] ==>
              var t := MiddleTime(Timestamps(aos));
              MiddleCounts(Count(aos, Decodes), Count(aos, SentUpTo(t)), Count(aos, SentFrom(t)))
  {
    hide Selected, Count, MiddleCounts, OrdersBy, TotalPreorder, SortedBy;
    SeenCount(aos, TimestampOf, Decodes);
    if Count(aos, Decodes) > 0 { CountPositive(aos, Decodes); }
    if i :| 0 <= i < |aos| && aos[i].Some? { SomeSelected(aos, i); }
    if Timestamps(aos) != [] {
      NatOrders();
      var t := MiddleTime(Timestamps(aos));
      MiddleByCounting<Option<Observation>, nat>(
        aos, TimestampOf, NatLeq, NatValue, Decodes, SentUpTo(t), SentFrom(t));
    }
  }

  lemma {:induction false} SomeSelected(aos: Attributed, i: nat)
    requires i < |aos| && aos[i].Some?
    ensures Timestamps(aos) != []
  {
    if i > 0 { SomeSelected(aos[1..], i - 1); }
  }

  /** The outcome of a round. A well-formed previous outcome and enough observations
      lead to exactly the decided step. */
  method NextOutcome(config: Config, hash: Hash, verify: Verifier, prev: Outcome, aos: Attributed, valued: Valued)
    returns (r: Result<Outcome, RoundError>, ghost v: Votes, ghost d: Decision)
    ensures r == Err(TooFewObservations) <==> |aos| < 2 * config.f + 1
    ensures r == Err(NoValidObservations) <==>
            |aos| >= 2 * config.f + 1 && forall i :: 0 <= i < |aos| ==> aos[i].None?
    ensures r.Ok? <==> |aos| >= 2 * config.f + 1 && exists i :: 0 <= i < |aos| && aos[i].Some?
    ensures r.Ok? ==>
              && Tallied(config, hash, verify, aos, v) && Decided(config, v, valued, d)
              && r.value == Advance(config, prev, d)
    ensures r.Ok? ==>
              && MiddleCounts(Count(aos, Decodes), Count(aos, SentUpTo(r.value.observedAt)),
                              Count(aos, SentFrom(r.value.observedAt)))
              && r.value.aggregates == valued.aggregates
              && (r.value.stage == Staging <==> prev.stage == Staging && v.report == None)
              && (r.value.stage == Retired <==>
                    || prev.stage == Retired
                    || (v.retireVotes > config.f && (prev.stage == Production || v.report != None)))
  {
    hide Tallied, Ordered, Elected, InstallAll, BaseWatermarks, UpdatesTallied, MiddleTime, Timestamps, Count,
      MiddleCounts;
    AgreedTimeByCounting(aos);
    v := Votes([], None, 0, multiset{}, map[], multiset{});
    d := Decision(0, None, false, {}, [], {}, {});
    if |aos| < 2 * config.f + 1 {
      return Err(TooFewObservations), v, d;
    }
    var votes := DecodeObservations(config, hash, verify, aos);
    v := votes;
    VotesFacts(config, hash, verify, aos, votes);
    if |votes.timestamps| == 0 {
      return Err(NoValidObservations), v, d;
    }
    var ordered := OrderUpdates(votes.updates);
    var removed := CollectRemovals(votes.removeVotes, config.f);
    var observedAt := MiddleTime(votes.timestamps);
    d := Decision(observedAt, votes.report, votes.retireVotes > config.f, removed,
                  Elected(ordered, votes.updateVotes, config.f), valued.aggregates, valued.evaluated);
    var out := Apply(config, prev, votes, ordered, removed, observedAt, valued, d);
    r := Ok(out);
  }

  lemma VotesFacts(config: Config, hash: Hash, verify: Verifier, aos: Attributed, v: Votes)
    requires Tallied(config, hash, verify, aos, v)
    ensures v.timestamps == Timestamps(aos) && forall h :: h in v.updates ==> v.updates[h].hash == h
  {
  }

  method Apply(
    config: Config, prev: Outcome, votes: Votes, ordered: seq<Winner>, removed: set<ChannelID>, observedAt: nat,
    valued: Valued, ghost d: Decision)
    returns (out: Outcome)
    requires d == Decision(observedAt, votes.report, votes.retireVotes > config.f, removed,
                           Elected(ordered, votes.updateVotes, config.f), valued.aggregates, valued.evaluated)
    ensures out == Advance(config, prev, d)
  {
    hide Elected, InstallAll, BaseWatermarks, Appended;
    var promoted := prev.stage.Staging? && votes.report.Some?;
    var stage := if promoted then Production else prev.stage;
    if stage.Production? && votes.retireVotes > config.f {
      stage := Retired;
    }
    var definitions, gone := prev.definitions, {};
    if !stage.Retired? {
      gone := removed;
      definitions := InstallVoted(prev.definitions - removed, ordered, votes.updateVotes, config.f);
    }
    var base;
    if promoted && votes.report.value.validAfter.Some? {
      base := votes.report.value.validAfter.value;
      InheritedBase(config, prev, d);
    } else {
      // The definitions map is shared with the previous outcome unless that was empty.
      var seen := prev.(definitions := if prev.definitions == map[] then map[] else definitions);
      base := CarryAll(config, prev, seen, d);
    }
    var validAfter := FillWatermarks(base, definitions, gone, observedAt);
    assert validAfter == NextWatermarks(config, prev, d);
    var committed := AppendCalculated(config, definitions, valued.evaluated);
    out := Outcome(stage, observedAt, committed, validAfter, valued.aggregates);
  }

  /** Evaluating a live expression channel that lists streams and declares IDs adds one
      calculated stream per ID, in order, behind the listed ones, unless the last listed
      one has the last ID. Nothing else changes a definition. */
  predicate IsEvaluated(config: Config, before: Definition, evaluated: bool, after: Definition) {
    var ids, n := config.expressionIDs(before.opts), |before.streams|;
    if evaluated && !before.tombstone && before.format == AbiUnpackedExpr && n > 0 && |ids| > 0
       && before.streams[n - 1].id != ids[|ids| - 1]
    then
      && after == before.(streams := after.streams)
      && |after.streams| == n + |ids| && after.streams[..n] == before.streams
      && forall i :: 0 <= i < |ids| ==> after.streams[n + i] == Stream(ids[i], Calculated)
    else after == before
  }

  lemma EvaluatedIs(config: Config, cd: Definition, evaluated: bool)
    ensures IsEvaluated(config, cd, evaluated, if evaluated then WithCalculated(config, cd) else cd)
  {
  }

  /** Lists the calculated streams of every evaluated channel on its definition. */
  method AppendCalculated(config: Config, defs: map<ChannelID, Definition>, evaluated: set<ChannelID>)
    returns (r: map<ChannelID, Definition>)
    ensures r == Appended(config, defs, evaluated) && r.Keys == defs.Keys
    ensures forall c :: c in defs ==> IsEvaluated(config, defs[c], c in evaluated, r[c])
  {
    hide WithCalculated, IsEvaluated;
    forall c | c in defs { EvaluatedIs(config, defs[c], c in evaluated); }
    r := defs;
    var todo: set<ChannelID> := set c | c in defs && !defs[c].tombstone && HasCalculatedStreams(defs[c]) &&
        c in evaluated;
    forall c | c in defs && c !in todo ensures c in evaluated ==> WithCalculated(config, defs[c]) == defs[c] {
      NoExpression(config, defs[c]);
    }
    while todo != {}
      invariant todo <= defs.Keys && todo <= evaluated
      invariant forall c :: c in r <==> c in defs
      invariant forall c :: c in r ==> r[c] == if c in todo then defs[c] else Appended(config, defs, evaluated)[c]
      decreases |todo|
    {
      var c :| c in todo;
      r, todo := r[c := WithCalculated(config, r[c])], todo - {c};
    }
  }

  lemma NoExpression(config: Config, cd: Definition)
    ensures cd.tombstone || !HasCalculatedStreams(cd) ==> WithCalculated(config, cd) == cd
  {
  }

  lemma InheritedBase(config: Config, prev: Outcome, d: Decision)
    requires Inherits(prev, d)
    ensures BaseWatermarks(config, prev, d) == d.report.value.validAfter.value
  {
  }

  // ---------------------------------------------------------- the agreed time

  /** With at most `f` faulty oracles among 2f+1 or more, the agreed time lies between two
      honest timestamps, however many faulty observations do not even decode. */
  lemma AgreedTimeBetweenHonest(config: Config, aos: Attributed, faulty: set<nat>)
    requires |aos| >= 2 * config.f + 1 && |faulty| <= config.f
    requires forall i :: 0 <= i < |aos| && i !in faulty ==> aos[i].Some?
    ensures Timestamps(aos) != []
    ensures var t := NatValue(MiddleTime(Timestamps(aos)));
            && (exists i :: 0 <= i < |aos| && i !in faulty && Through(TimestampOf, AtMost<nat>(NatValue, t))(aos[i]))
            && (exists i :: 0 <= i < |aos| && i !in faulty && Through(TimestampOf, AtLeast<nat>(NatValue, t))(aos[i]))
  {
    hide OrdersBy, TotalPreorder, Selected, AtMost, AtLeast, SortedBy, Through;
    NatOrders();
    var decoding := set i | i in faulty && i < |aos| && aos[i].Some?;
    FewFaultyDecode(aos, faulty, decoding, config.f);
    var k := |Timestamps(aos)| / 2;
    RankBetweenHonest<Option<Observation>, nat>(aos, TimestampOf, NatLeq, NatValue, k, decoding);
    var t := NatValue(Sort(Timestamps(aos), NatLeq)[k]);
    HonestIfNotDecoding(aos, faulty, decoding, AtMost<nat>(NatValue, t));
    HonestIfNotDecoding(aos, faulty, decoding, AtLeast<nat>(NatValue, t));
  }

  lemma FewFaultyDecode(aos: Attributed, faulty: set<nat>, decoding: set<nat>, f: nat)
    requires |aos| >= 2 * f + 1 && |faulty| <= f && decoding <= faulty
    requires forall i :: 0 <= i < |aos| && i !in faulty - decoding ==> aos[i].Some?
    ensures |Timestamps(aos)| > 2 * |decoding|
  {
    hide Selected, Count;
    assert |faulty - decoding| == |faulty| - |decoding|;
    HonestCounted(aos, Decodes, faulty - decoding);
    AllSeen(aos);
  }

  lemma HonestIfNotDecoding(aos: Attributed, faulty: set<nat>, decoding: set<nat>, p: nat -> bool)
    requires forall i :: i in faulty && i < |aos| && aos[i].Some? ==> i in decoding
    requires exists i :: 0 <= i < |aos| && i !in decoding && Through(TimestampOf, p)(aos[i])
    ensures exists i :: 0 <= i < |aos| && i !in faulty && Through(TimestampOf, p)(aos[i])
  {
    var i :| 0 <= i < |aos| && i !in decoding && Through(TimestampOf, p)(aos[i]);
    assert TimestampOf(aos[i]).Some?;
  }

  lemma {:induction false} AllSeen(aos: Attributed)
    ensures |Timestamps(aos)| == Count(aos, Decodes)
  {
    if aos != [] { AllSeen(aos[1..]); }
  }

  // ------------------------------------------------------------------- reports

  datatype ChannelReport =
    | LiveReport(channel: ChannelID, interval: Interval, specimen: bool)
    | BackfillReport(channel: ChannelID, row: Candidate, specimen: bool)

  /** The reportable channels of an outcome in ascending order. */
  method ReportableChannels(config: Config, out: Outcome) returns (ids: seq<ChannelID>)
    ensures forall i, j :: 0 <= i < j < |ids| ==> ids[i] < ids[j]
    ensures forall c :: c in ids <==> Reportable(config, out, c)
  {
    hide Reportable;
    ReportableDefined(config, out);
    var found: set<ChannelID> := {};
    var todo := out.definitions.Keys;
    while todo != {}
      invariant todo <= out.definitions.Keys
      invariant forall c :: c in found <==> c in out.definitions && c !in todo && Reportable(config, out, c)
      decreases |todo|
    {
      var c :| c in todo;
      var ok := IsReportable(config, out, c);
      if ok {
        found := found + {c};
      }
      todo := todo - {c};
    }
    var drained := Drain(found);
    ids := Sort(drained, NatLeq);
    SameElements(drained, ids);
    PermutationKeepsNoDuplicates(drained, ids);
  }

  lemma ReportableDefined(config: Config, out: Outcome)
    ensures forall c :: Reportable(config, out, c) ==> c in out.definitions
  {
  }

  ghost predicate ReportOk(config: Config, out: Outcome, r: ChannelReport) {
    && Reportable(config, out, r.channel) && r.specimen == !out.stage.Production?
    && match r
       case LiveReport(c, interval, _) =>
         && !out.definitions[c].format.HistoryBackfill?
         && interval == Interval(out.validAfter[c], out.observedAt)
       case BackfillReport(c, row, _) =>
         && out.definitions[c].format.HistoryBackfill? && NextRow(config, out, c) == Some(row.raw)
         && KeyNanos(row.raw, BackfillTick(config, out, c).value) == Some(row.nanos)
  }

  /** A live report spans watermark to observation, a backfill report carries the time of
      its row; everything outside production is a specimen. */
  predicate ReportFields(config: Config, out: Outcome, r: ChannelReport) {
    && (r.specimen <==> out.stage != Production)
    && r.channel in out.definitions && r.channel in out.validAfter
    && (r.BackfillReport? <==> out.definitions[r.channel].format == HistoryBackfill)
    && (r.LiveReport? ==> r.interval == Interval(out.validAfter[r.channel], out.observedAt))
    && (r.BackfillReport? ==> out.validAfter[r.channel] < r.row.nanos < out.observedAt)
  }

  lemma ReportOkFields(config: Config, out: Outcome, r: ChannelReport)
    requires ReportOk(config, out, r)
    ensures ReportFields(config, out, r)
  {
  }

  /** One report per reportable channel, in channel order, each over exactly the interval
      its watermark opens; a retired instance reports its watermarks instead. */
  method BuildReports(config: Config, out: Outcome)
    returns (retirement: Option<RetirementReport>, reports: seq<ChannelReport>)
    ensures retirement == if out.stage.Retired? then Some(GenRetirementReport(config, out)) else None
    ensures retirement.Some? ==>
              && retirement.value.version == config.version
              && (retirement.value.validAfter == None <==> out.validAfter == map[])
              && (retirement.value.validAfter.Some? ==> retirement.value.validAfter.value == out.validAfter)
    ensures forall r :: r in reports ==> ReportOk(config, out, r) && ReportFields(config, out, r)
    ensures forall c :: Reportable(config, out, c) <==> exists i :: 0 <= i < |reports| && reports[i].channel == c
    ensures forall i, j :: 0 <= i < j < |reports| ==> reports[i].channel < reports[j].channel
  {
    hide ReportOk, Reportable;
    forall r: ChannelReport | ReportOk(config, out, r) ensures ReportFields(config, out, r) {
      ReportOkFields(config, out, r);
    }
    retirement := if out.stage.Retired? then Some(GenRetirementReport(config, out)) else None;
    reports := [];
    var ids := ReportableChannels(config, out);
    for i := 0 to |ids|
      invariant |reports| == i && forall j :: 0 <= j < i ==> reports[j].channel == ids[j]
      invariant forall r :: r in reports ==> ReportOk(config, out, r)
    {
      assert ids[i] in ids;
      var r := BuildReport(config, out, ids[i]);
      reports := reports + [r];
    }
    forall c ensures c in ids <==> exists i :: 0 <= i < |reports| && reports[i].channel == c {
      if c in ids {
        var i :| 0 <= i < |ids| && ids[i] == c;
        assert reports[i].channel == c;
      }
    }
  }

  method BuildReport(config: Config, out: Outcome, c: ChannelID) returns (r: ChannelReport)
    requires Reportable(config, out, c)
    ensures r.channel == c && ReportOk(config, out, r)
  {
    hide NextRow, KeyNanos, IntervalOk;
    if out.definitions[c].format.HistoryBackfill? {
      var candidate := SelectBackfillCandidate(config, out, c);
      return BackfillReport(c, candidate.value, !out.stage.Production?);
    }
    r := LiveReport(c, Interval(out.validAfter[c], out.observedAt), !out.stage.Production?);
  }
}
