/** Which channel votes an oracle accepts from another
    (llo/v30/plugin.go, llo/protocol/channel_definitions.go). */
module Validations {
  import opened Collections
  import opened Tallies
  import opened Votes
  import Analyses

  const MAX_REMOVALS: nat := 5
  const MAX_UPDATES: nat := 5

  type Definitions = map<ChannelID, Definition>

  /** What the checks read off opaque parts of a definition: the verdict of its report
      codec, the target a backfill names, and whether a backfill suits its target. */
  datatype Rules = Rules(
    verified: Definition -> bool, target: Definition -> Option<ChannelID>, suits: (Definition, Definition) -> bool)

  /** The checks that need nothing but the definition. */
  predicate OwnChecks(rules: Rules, cd: Definition) { !Analyses.BadStreams(cd) && rules.verified(cd) }

  predicate IsBackfill(cd: Definition) { !cd.tombstone && cd.format.HistoryBackfill? }

  predicate TargetOk(rules: Rules, defs: Definitions, cd: Definition) {
    var t := rules.target(cd);
    t.Some? && t.value in defs && rules.suits(cd, defs[t.value])
  }

  /** A tombstone passes whatever it holds. */
  predicate ChannelOk(rules: Rules, defs: Definitions, cd: Definition) {
    cd.tombstone || (OwnChecks(rules, cd) && (IsBackfill(cd) ==> TargetOk(rules, defs, cd)))
  }

  function StreamIDs(defs: Definitions): set<StreamID> {
    set c, s | c in defs && !defs[c].tombstone && s in defs[c].streams :: s.id
  }

  lemma ListedIDs(defs: Definitions, id: StreamID)
    ensures id in StreamIDs(defs) <==> exists c :: c in defs && Lists(defs[c], id)
  {
    if id in StreamIDs(defs) {
      var c, s :| c in defs && !defs[c].tombstone && s in defs[c].streams && s.id == id;
      assert Lists(defs[c], id);
    }
  }

  /** The checks every set of definitions must pass. */
  ghost predicate Baseline(rules: Rules, defs: Definitions) {
    && |defs| <= MAX_CHANNELS
    && (forall c :: c in defs ==> ChannelOk(rules, defs, defs[c]))
    && |StreamIDs(defs)| <= MAX_STREAM_IDS
  }

  /** Those checks by the fields of the definitions: at most 2000 channels and 10,000 stream
      IDs, and each channel that is no tombstone has between one and 10,000 streams with
      their aggregators set, satisfies its codec, and as a backfill names a target in the
      set that it suits. */
  ghost predicate WellFormed(rules: Rules, defs: Definitions) {
    && |defs| <= 2000
    && |StreamIDs(defs)| <= 10_000
    && forall c :: c in defs && !defs[c].tombstone ==>
         && 0 < |defs[c].streams| <= 10_000
         && (forall s :: s in defs[c].streams ==> !s.aggregator.Unset?)
         && rules.verified(defs[c])
         && (defs[c].format.HistoryBackfill? ==>
               && rules.target(defs[c]).Some?
               && rules.target(defs[c]).value in defs
               && rules.suits(defs[c], defs[rules.target(defs[c]).value]))
  }

  lemma WellFormedIff(rules: Rules, defs: Definitions)
    ensures Baseline(rules, defs) <==> WellFormed(rules, defs)
  {
    hide StreamIDs;
  }

  method StreamsOf(cd: Definition, before: set<StreamID>) returns (ids: set<StreamID>)
    requires !cd.tombstone
    ensures forall id :: id in ids <==> id in before || Lists(cd, id)
  {
    ids := before;
    for i := 0 to |cd.streams|
      invariant forall id :: id in ids <==> id in before || exists j :: 0 <= j < i && cd.streams[j].id == id
    {
      ids := ids + {cd.streams[i].id};
    }
    forall id ensures (exists j :: 0 <= j < |cd.streams| && cd.streams[j].id == id) <==> Lists(cd, id) {
      if Lists(cd, id) {
        var s :| s in cd.streams && s.id == id;
        var j :| 0 <= j < |cd.streams| && cd.streams[j] == s;
      }
    }
  }

  /** Visits the channels in any order; the stream count is only looked at when no
      channel has a finding. */
  method VerifyChannelDefinitions(rules: Rules, defs: Definitions) returns (ok: bool)
    ensures ok <==> Baseline(rules, defs)
    ensures ok <==> WellFormed(rules, defs)
  {
    WellFormedIff(rules, defs);
    hide ChannelOk, Lists, StreamIDs, WellFormed;
    if |defs| > MAX_CHANNELS {
      return false;
    }
    var todo, ids := defs.Keys, {};
    ok := true;
    while todo != {}
      invariant todo <= defs.Keys
      invariant ok <==> forall c :: c in defs && c !in todo ==> ChannelOk(rules, defs, defs[c])
      invariant ok ==> forall id :: id in ids <==> exists c :: c in defs && c !in todo && Lists(defs[c], id)
      decreases |todo|
    {
      var c :| c in todo;
      todo := todo - {c};
      if !ChannelOk(rules, defs, defs[c]) {
        ok := false;
      } else if defs[c].tombstone {
        NothingListed(defs[c]);
      } else {
        ids := StreamsOf(defs[c], ids);
      }
    }
    if ok {
      forall id ensures id in ids <==> id in StreamIDs(defs) { ListedIDs(defs, id); }
      assert ids == StreamIDs(defs);
      ok := |ids| <= MAX_STREAM_IDS;
    }
  }

  lemma NothingListed(cd: Definition)
    requires cd.tombstone
    ensures forall id :: !Lists(cd, id)
  {
  }

  /** The channel votes of an observation are checked merged into the committed set; its
      own removals are not taken into account. */
  ghost predicate Accepted(rules: Rules, current: Definitions, o: Observation) {
    && |o.updates| <= MAX_UPDATES && |o.removals| <= MAX_REMOVALS
    && (o.updates == map[] || Baseline(rules, current + o.updates))
  }

  method ValidateChannelVotes(rules: Rules, current: Definitions, o: Observation) returns (ok: bool)
    ensures ok <==> Accepted(rules, current, o)
    ensures ok <==>
            && |o.updates| <= 5 && |o.removals| <= 5
            && (|o.updates| > 0 ==> WellFormed(rules, current + o.updates))
  {
    if |o.updates| > MAX_UPDATES || |o.removals| > MAX_REMOVALS {
      return false;
    }
    var defs := o.updates;
    if |o.updates| > 0 {
      defs := current + o.updates;
    } else {
      assert StreamIDs(o.updates) == {};
    }
    ok := VerifyChannelDefinitions(rules, defs);
  }
}
