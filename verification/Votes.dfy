/** Counting the votes of a round's observations (llo/v30/plugin_outcome.go). */
module Votes {
  import opened Collections
  import opened Medians
  import opened Tallies
  import opened Outcomes

  const MAX_SUPPORTED_VERSION: nat := 2

  /** One oracle's observation; an attested retirement report is opaque until verified. */
  datatype Observation = Observation(
    attested: Option<nat>, shouldRetire: bool, timestamp: nat,
    removals: set<ChannelID>, updates: map<ChannelID, Definition>)

  /** The attributed observations of a round, one per oracle; one that does not decode
      is ignored. */
  type Attributed = seq<Option<Observation>>

  type Hash = (ChannelID, Definition) -> nat

  type Verifier = nat -> Option<RetirementReport>

  datatype Votes = Votes(
    timestamps: seq<nat>, report: Option<RetirementReport>, retireVotes: nat,
    removeVotes: multiset<ChannelID>, updates: map<nat, Winner>, updateVotes: multiset<nat>)

  // ------------------------------------------------------------ what is counted

  predicate Decodes(o: Option<Observation>) { o.Some? }

  predicate Retires(o: Option<Observation>) { o.Some? && o.value.shouldRetire }

  /** Votes to remove channel `c`. */
  function RemovalOf(c: ChannelID): Option<Observation> -> bool {
    (o: Option<Observation>) => o.Some? && c in o.value.removals
  }

  /** Votes to install exactly definition `d` for channel `c`. */
  function UpdateTo(c: ChannelID, d: Definition): Option<Observation> -> bool {
    (o: Option<Observation>) => o.Some? && c in o.value.updates && o.value.updates[c] == d
  }

  /** What the vote identity of a protocol version commits to: versions 0 and 1 leave
      tombstone, source and the demand for values out. */
  function Hashed(version: nat, cd: Definition): Definition {
    if version >= 2 then cd else cd.(tombstone := false, source := 0, disableNilStreamValues := false)
  }

  /** Versions 0 and 1 identify a definition by format, streams and opts, later ones by
      all of it. */
  lemma HashedIff(version: nat, a: Definition, b: Definition)
    ensures Hashed(version, a) == Hashed(version, b) <==>
              && a.format == b.format && a.streams == b.streams && a.opts == b.opts
              && (version != 0 && version != 1 ==>
                    a.tombstone == b.tombstone && a.source == b.source
                    && a.disableNilStreamValues == b.disableNilStreamValues)
  {
  }

  /** Votes for definition `d` of channel `c` as far as the identity tells. */
  function UpdateLike(version: nat, c: ChannelID, d: Definition): Option<Observation> -> bool {
    (o: Option<Observation>) => o.Some? && c in o.value.updates &&
        Hashed(version, o.value.updates[c]) == Hashed(version, d)
  }

  /** The hash has no collisions on what it commits to. */
  ghost predicate Identifies(hash: Hash, version: nat) {
    forall c, d, e, f :: hash(c, d) == hash(e, f) <==> c == e && Hashed(version, d) == Hashed(version, f)
  }

  function Matching(hash: Hash, updates: map<ChannelID, Definition>, h: nat): set<ChannelID> {
    set c | c in updates && hash(c, updates[c]) == h
  }

  /** How many votes are counted under a hash. */
  function UpdateCount(hash: Hash, aos: Attributed, h: nat): nat {
    if aos == [] then 0
    else
      UpdateCount(hash, aos[..|aos| - 1], h) +
      if aos[|aos| - 1].Some? then |Matching(hash, aos[|aos| - 1].value.updates, h)| else 0
  }

  function TimestampOf(o: Option<Observation>): Option<nat> { if o.Some? then Some(o.value.timestamp) else None }

  function Timestamps(aos: Attributed): seq<nat> { Selected(aos, TimestampOf) }

  predicate Compatible(r: RetirementReport, version: nat) {
    r.version <= MAX_SUPPORTED_VERSION && version <= MAX_SUPPORTED_VERSION
  }

  function ReportIn(config: Config, verify: Verifier, o: Option<Observation>): Option<RetirementReport> {
    if o.Some? && o.value.attested.Some? && config.hasPredecessor then
      var r := verify(o.value.attested.value);
      if r.Some? && Compatible(r.value, config.version) then r else None
    else None
  }

  /** The first retirement report that verifies and is compatible. */
  function FirstReport(config: Config, verify: Verifier, aos: Attributed): Option<RetirementReport> {
    if aos == [] then None
    else
      var earlier := FirstReport(config, verify, aos[..|aos| - 1]);
      if earlier.Some? then earlier else ReportIn(config, verify, aos[|aos| - 1])
  }

  /** Observation `i` carries an attested report that verifies as `r`, and both protocol
      versions are known ones; only an instance with a predecessor looks. */
  ghost predicate Attests(config: Config, verify: Verifier, aos: Attributed, i: nat, r: RetirementReport) {
    && i < |aos| && config.hasPredecessor && aos[i].Some? && aos[i].value.attested.Some?
    && verify(aos[i].value.attested.value) == Some(r) && r.version <= 2 && config.version <= 2
  }

  /** The report that counts is the one of the first observation that carries a good one. */
  lemma {:induction false} FirstReportIff(config: Config, verify: Verifier, aos: Attributed, r: RetirementReport)
    ensures FirstReport(config, verify, aos) == Some(r) <==>
            exists i ::
              Attests(config, verify, aos, i, r) && forall j, s :: Attests(config, verify, aos, j, s) ==> i <= j
    ensures FirstReport(config, verify, aos) == None <==> forall i, s :: !Attests(config, verify, aos, i, s)
    decreases |aos|
  {
    if aos != [] {
      var n := |aos| - 1;
      forall s { FirstReportIff(config, verify, aos[..n], s); }
      forall i: nat, s | i < n ensures Attests(config, verify, aos, i, s) <==> Attests(config, verify, aos[..n], i, s) {
      }
      forall s ensures Attests(config, verify, aos, n, s) <==> ReportIn(config, verify, aos[n]) == Some(s) {
      }
      var earlier := FirstReport(config, verify, aos[..n]);
      if earlier.Some? {
        var i :| Attests(config, verify, aos[..n], i, earlier.value)
              && forall j, s :: Attests(config, verify, aos[..n], j, s) ==> i <= j;
        assert Attests(config, verify, aos, i, earlier.value);
      } else if ReportIn(config, verify, aos[n]).Some? {
        assert Attests(config, verify, aos, n, ReportIn(config, verify, aos[n]).value);
      }
    }
  }

  predicate VotesUnder(hash: Hash, o: Option<Observation>, h: nat)
  {
    o.Some? && Matching(hash, o.value.updates, h) != {}
  }

  /** A recorded winner is what the last observation with a vote under that hash voted for. */
  ghost predicate Recorded(hash: Hash, aos: Attributed, w: Winner, h: nat) {
    && w.hash == h && hash(w.id, w.definition) == h
    && exists i :: 0 <= i < |aos| && RecordedAt(hash, aos, w, h, i)
  }

  ghost predicate RecordedAt(hash: Hash, aos: Attributed, w: Winner, h: nat, i: nat)
    requires i < |aos|
  {
    UpdateTo(w.id, w.definition)(aos[i]) && forall j :: i < j < |aos| ==> !VotesUnder(hash, aos[j], h)
  }

  ghost predicate UpdatesTallied(hash: Hash, aos: Attributed, updates: map<nat, Winner>, votes: multiset<nat>) {
    && (forall h: nat :: votes[h] == UpdateCount(hash, aos, h))
    && (forall h: nat :: h in updates <==> h in votes)
    && (forall h: nat :: h in updates ==> Recorded(hash, aos, updates[h], h))
  }

  ghost predicate Tallied(config: Config, hash: Hash, verify: Verifier, aos: Attributed, v: Votes) {
    && v.timestamps == Timestamps(aos)
    && v.report == FirstReport(config, verify, aos)
    && v.retireVotes == Count(aos, Retires)
    && (forall c: ChannelID :: v.removeVotes[c] == Count(aos, RemovalOf(c)))
    && UpdatesTallied(hash, aos, v.updates, v.updateVotes)
  }

  /** The votes under a hash: which observation, for which channel. */
  ghost function Ballots(hash: Hash, aos: Attributed, h: nat): set<(nat, ChannelID)> {
    set i: nat, c | i < |aos| && aos[i].Some? && c in aos[i].value.updates && hash(c, aos[i].value.updates[c]) == h ::
      (i, c)
  }

  /** The tally by the observations themselves: one vote each for retiring and for removing a
      channel, and one for every channel they list an update of. */
  lemma TallyIsByObservation(
    config: Config, hash: Hash, verify: Verifier, aos: Attributed, v: Votes, c: ChannelID, h: nat)
    requires Tallied(config, hash, verify, aos, v)
    ensures v.retireVotes == |set i: nat | i < |aos| && aos[i].Some? && aos[i].value.shouldRetire|
    ensures v.removeVotes[c] == |set i: nat | i < |aos| && aos[i].Some? && c in aos[i].value.removals|
    ensures v.updateVotes[h] == |Ballots(hash, aos, h)|
  {
    hide Count, FirstReport, UpdateCount, Timestamps, Recorded, Ballots;
    CountPlaces(aos, Retires);
    CountPlaces(aos, RemovalOf(c));
    assert Places(aos, Retires) == set i: nat | i < |aos| && aos[i].Some? && aos[i].value.shouldRetire;
    assert Places(aos, RemovalOf(c)) == set i: nat | i < |aos| && aos[i].Some? && c in aos[i].value.removals;
    BallotCount(hash, aos, h);
  }

  lemma {:induction false} BallotCount(hash: Hash, aos: Attributed, h: nat)
    ensures UpdateCount(hash, aos, h) == |Ballots(hash, aos, h)|
    decreases |aos|
  {
    if aos == [] {
      assert Ballots(hash, aos, h) == {};
    } else {
      var n := |aos| - 1;
      BallotCount(hash, aos[..n], h);
      var earlier := Ballots(hash, aos[..n], h);
      var these := if aos[n].Some? then Matching(hash, aos[n].value.updates, h) else {};
      var last := set c | c in these :: (n, c);
      BallotSize(these, last, n);
      assert Ballots(hash, aos, h) == earlier + last by { LastBallots(hash, aos, h, these, last); }
      assert earlier !! last by { EarlierBallots(hash, aos[..n], h); }
    }
  }

  lemma LastBallots(
    hash: Hash, aos: Attributed, h: nat, these: set<ChannelID>, last: set<(nat, ChannelID)>)
    requires aos != [] && last == set c | c in these :: (|aos| - 1, c)
    requires these == if aos[|aos| - 1].Some? then Matching(hash, aos[|aos| - 1].value.updates, h) else {}
    ensures Ballots(hash, aos, h) == Ballots(hash, aos[..|aos| - 1], h) + last
  {
  }

  lemma EarlierBallots(hash: Hash, aos: Attributed, h: nat)
    ensures forall b :: b in Ballots(hash, aos, h) ==> b.0 < |aos|
  {
  }

  lemma {:induction false} BallotSize(cs: set<ChannelID>, pairs: set<(nat, ChannelID)>, n: nat)
    requires pairs == set c | c in cs :: (n, c)
    ensures |pairs| == |cs|
  {
    if cs != {} {
      var c :| c in cs;
      BallotSize(cs - {c}, pairs - {(n, c)}, n);
    }
  }

  // ------------------------------------------------------------------ counting

  /** Counts one observation's removals, in whatever order they are drained. */
  method CountRemovals(removals: set<ChannelID>, votes: multiset<ChannelID>) returns (r: multiset<ChannelID>)
    ensures forall c: ChannelID :: r[c] == votes[c] + if c in removals then 1 else 0
  {
    var todo := removals;
    r := votes;
    while todo != {}
      invariant todo <= removals
      invariant forall c: ChannelID :: r[c] == votes[c] + if c in removals && c !in todo then 1 else 0
      decreases |todo|
    {
      var c :| c in todo;
      r, todo := r + multiset{c}, todo - {c};
    }
  }

  ghost predicate FromThese(hash: Hash, these: map<ChannelID, Definition>, w: Winner, h: nat) {
    w.hash == h && hash(w.id, w.definition) == h && w.id in these && these[w.id] == w.definition
  }

  /** One observation's updates: what was counted, and where every entry came from. */
  ghost predicate UpdatesAdded(
    hash: Hash, these: map<ChannelID, Definition>, before: map<nat, Winner>, votes: multiset<nat>,
    after: map<nat, Winner>, total: multiset<nat>)
  {
    && (forall h: nat :: total[h] == votes[h] + |Matching(hash, these, h)|)
    && (forall h: nat :: h in after ==>
          if Matching(hash, these, h) == {} then h in before && after[h] == before[h]
              else FromThese(hash, these, after[h], h))
    && (forall h: nat :: h in before ==> h in after)
    && (forall h: nat :: Matching(hash, these, h) != {} ==> h in after)
  }

  lemma MatchingMore(hash: Hash, these: map<ChannelID, Definition>, c: ChannelID, d: Definition, h: nat)
    requires c !in these
    ensures |Matching(hash, these[c := d], h)| == |Matching(hash, these, h)| + if hash(c, d) == h then 1 else 0
    ensures Matching(hash, these[c := d], h) != {} <==> Matching(hash, these, h) != {} || hash(c, d) == h
  {
    assert Matching(hash, these[c := d], h) == Matching(hash, these, h) + if hash(c, d) == h then {c} else {};
  }

  lemma UpdateOneMore(
    hash: Hash, these: map<ChannelID, Definition>, before: map<nat, Winner>, votes: multiset<nat>,
    after: map<nat, Winner>, total: multiset<nat>, c: ChannelID, d: Definition)
    requires UpdatesAdded(hash, these, before, votes, after, total) && c !in these
    ensures UpdatesAdded(hash, these[c := d], before, votes, after[hash(c, d) := Winner(c, hash(c, d), d)],
              total + multiset{hash(c, d)})
  {
    hide Matching;
    var more, k := these[c := d], hash(c, d);
    var next, sum := after[k := Winner(c, k, d)], total + multiset{k};
    forall h: nat
      ensures sum[h] == votes[h] + |Matching(hash, more, h)| && (Matching(hash, more, h) != {} ==> h in next)
    {
      MatchingMore(hash, these, c, d, h);
    }
    forall h: nat | h in next
      ensures if Matching(hash, more, h) == {} then h in before && next[h] == before[h]
                else FromThese(hash, more, next[h], h)
    {
      MatchingMore(hash, these, c, d, h);
    }
  }

  method CountUpdates(hash: Hash, these: map<ChannelID, Definition>, before: map<nat, Winner>, votes: multiset<nat>)
    returns (after: map<nat, Winner>, total: multiset<nat>)
    ensures UpdatesAdded(hash, these, before, votes, after, total)
  {
    hide UpdatesAdded;
    var todo := these.Keys;
    after, total := before, votes;
    NoUpdates(hash, before, votes);
    assert these - todo == map[];
    while todo != {}
      invariant todo <= these.Keys
      invariant UpdatesAdded(hash, these - todo, before, votes, after, total)
      decreases |todo|
    {
      var c :| c in todo;
      var h := hash(c, these[c]);
      UpdateOneMore(hash, these - todo, before, votes, after, total, c, these[c]);
      assert (these - todo)[c := these[c]] == these - (todo - {c});
      after, total, todo := after[h := Winner(c, h, these[c])], total + multiset{h}, todo - {c};
    }
    assert these - {} == these;
  }

  lemma NoUpdates(hash: Hash, before: map<nat, Winner>, votes: multiset<nat>)
    ensures UpdatesAdded(hash, map[], before, votes, before, votes)
  {
  }

  lemma RecordedLater(hash: Hash, aos: Attributed, i: nat, w: Winner, h: nat)
    requires i < |aos| && Recorded(hash, aos[..i], w, h) && !VotesUnder(hash, aos[i], h)
    ensures Recorded(hash, aos[..i + 1], w, h)
  {
    hide VotesUnder;
    var j :| 0 <= j < i && RecordedAt(hash, aos[..i], w, h, j);
    assert RecordedAt(hash, aos[..i + 1], w, h, j);
  }

  lemma RecordedNow(hash: Hash, aos: Attributed, i: nat, w: Winner, h: nat)
    requires i < |aos| && aos[i].Some? && FromThese(hash, aos[i].value.updates, w, h)
    ensures Recorded(hash, aos[..i + 1], w, h)
  {
    assert RecordedAt(hash, aos[..i + 1], w, h, i);
  }

  lemma UpdatesTalliedNext(
    hash: Hash, aos: Attributed, i: nat, before: map<nat, Winner>, votes: multiset<nat>,
    after: map<nat, Winner>, total: multiset<nat>)
    requires i < |aos| && aos[i].Some? && UpdatesTallied(hash, aos[..i], before, votes)
    requires UpdatesAdded(hash, aos[i].value.updates, before, votes, after, total)
    ensures UpdatesTallied(hash, aos[..i + 1], after, total)
  {
    hide Matching, FromThese, Recorded;
    assert aos[..i + 1][..i] == aos[..i];
    forall h: nat ensures total[h] == UpdateCount(hash, aos[..i + 1], h) && (h in after <==> h in total) {
      assert Matching(hash, aos[i].value.updates, h) == {} <==> |Matching(hash, aos[i].value.updates, h)| == 0;
      assert h in after ==> h in before || FromThese(hash, aos[i].value.updates, after[h], h);
      if h in after && FromThese(hash, aos[i].value.updates, after[h], h) {
        FromMatches(hash, aos[i].value.updates, after[h], h);
      }
    }
    forall h: nat | h in after ensures Recorded(hash, aos[..i + 1], after[h], h) {
      if Matching(hash, aos[i].value.updates, h) == {} { RecordedLater(hash, aos, i, after[h], h); }
      else { RecordedNow(hash, aos, i, after[h], h); }
    }
  }

  lemma FromMatches(hash: Hash, these: map<ChannelID, Definition>, w: Winner, h: nat)
    requires FromThese(hash, these, w, h)
    ensures Matching(hash, these, h) != {}
  {
    assert w.id in Matching(hash, these, h);
  }

  lemma UpdatesTalliedSkip(hash: Hash, aos: Attributed, i: nat, updates: map<nat, Winner>, votes: multiset<nat>)
    requires i < |aos| && aos[i].None? && UpdatesTallied(hash, aos[..i], updates, votes)
    ensures UpdatesTallied(hash, aos[..i + 1], updates, votes)
  {
    hide Recorded;
    assert aos[..i + 1][..i] == aos[..i];
    forall h: nat | h in updates ensures Recorded(hash, aos[..i + 1], updates[h], h) {
      RecordedLater(hash, aos, i, updates[h], h);
    }
  }

  /** Tallies the observations of a round. */
  method DecodeObservations(config: Config, hash: Hash, verify: Verifier, aos: Attributed) returns (v: Votes)
    ensures Tallied(config, hash, verify, aos, v)
  {
    hide UpdatesTallied;
    v := Votes([], None, 0, multiset{}, map[], multiset{});
    NothingTallied(config, hash, verify, v);
    assert aos[..0] == [];
    for i := 0 to |aos|
      invariant Tallied(config, hash, verify, aos[..i], v)
    {
      v := DecodeOne(config, hash, verify, aos, i, v);
    }
    assert aos[..|aos|] == aos;
  }

  lemma NothingTallied(config: Config, hash: Hash, verify: Verifier, v: Votes)
    requires v == Votes([], None, 0, multiset{}, map[], multiset{})
    ensures Tallied(config, hash, verify, [], v)
  {
  }

  method DecodeOne(config: Config, hash: Hash, verify: Verifier, aos: Attributed, i: nat, v: Votes) returns (r: Votes)
    requires i < |aos| && Tallied(config, hash, verify, aos[..i], v)
    ensures Tallied(config, hash, verify, aos[..i + 1], r)
  {
    hide UpdatesTallied, UpdatesAdded, Count, Selected;
    assert aos[..i + 1][..i] == aos[..i];
    SelectedNext(aos, i, TimestampOf);
    CountNext(aos, i, Retires);
    forall c: ChannelID { CountNext(aos, i, RemovalOf(c)); }
    if aos[i].None? {
      UpdatesTalliedSkip(hash, aos, i, v.updates, v.updateVotes);
      assert v.timestamps + [] == v.timestamps;
      return v;
    }
    var o := aos[i].value;
    var report := v.report;
    if o.attested.Some? && report.None? && config.hasPredecessor {
      var checked := verify(o.attested.value);
      if checked.Some? && Compatible(checked.value, config.version) {
        report := checked;
      }
    }
    var removeVotes := CountRemovals(o.removals, v.removeVotes);
    var updates, updateVotes := CountUpdates(hash, o.updates, v.updates, v.updateVotes);
    UpdatesTalliedNext(hash, aos, i, v.updates, v.updateVotes, updates, updateVotes);
    r := Votes(v.timestamps + [o.timestamp], report, v.retireVotes + (if o.shouldRetire then 1 else 0),
               removeVotes, updates, updateVotes);
  }

  // ---------------------------------------------------------------- byzantine

  /** The votes under a definition's hash are exactly the observations that carry that
      definition for that channel, as far as the hash tells. */
  lemma {:induction false} HashVotesAreExact(hash: Hash, version: nat, aos: Attributed, c: ChannelID, d: Definition)
    requires Identifies(hash, version)
    ensures UpdateCount(hash, aos, hash(c, d)) == Count(aos, UpdateLike(version, c, d))
    decreases |aos|
  {
    if aos != [] {
      hide Hashed;
      var n := |aos| - 1;
      HashVotesAreExact(hash, version, aos[..n], c, d);
      assert aos[..n + 1] == aos;
      CountNext(aos, n, UpdateLike(version, c, d));
      if aos[n].Some? {
        assert Matching(hash, aos[n].value.updates, hash(c, d)) == if UpdateLike(version, c, d)(aos[n]) then {c}
            else {};
      }
    }
  }
}
