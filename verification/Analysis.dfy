/** The stream-ID part of the whole-set analysis (llo/protocol/channel_definitions.go). */
module Analyses {
  import opened Collections
  import opened Tallies
  import Budgets

  const MAX_STREAMS_PER_CHANNEL: nat := 10_000

  /** Channel `channel` declares a calculated stream that `owner` declares or observes too. */
  datatype Collision = Collision(channel: ChannelID, stream: StreamID, owner: ChannelID)

  /** `errs` are the channels with a stream-count or zero-aggregator finding. */
  datatype Analysis =
    | TooManyChannels
    | Analyzed(errs: set<ChannelID>, uniqueStreamIDs: nat, collisions: seq<Collision>)

  type Owners = map<StreamID, ChannelID>

  predicate BadStreams(cd: Definition) {
    && !cd.tombstone
    && (|cd.streams| == 0 || |cd.streams| > MAX_STREAMS_PER_CHANNEL || HasUnset(cd.streams))
  }

  predicate Observes(defs: map<ChannelID, Definition>, c: ChannelID, id: StreamID) {
    c in defs && !defs[c].tombstone && id in ObservedIDs(defs[c].streams)
  }

  predicate Declares(decode: Definition -> Facts, defs: map<ChannelID, Definition>, c: ChannelID, id: StreamID) {
    c in defs && !defs[c].tombstone && id in DeriveFacts(decode, defs[c]).calculatedIDs
  }

  function Elements<T>(s: seq<T>): set<T> { set x | x in s }

  lemma OneMoreElement<T>(s: seq<T>, n: nat)
    requires n < |s|
    ensures Elements(s[..n + 1]) == Elements(s[..n]) + {s[n]} && s[n] in s
  {
    assert s[..n + 1] == s[..n] + [s[n]];
  }

  /** Owners keep what they own, and every new one is `channel` with one of its own streams. */
  ghost predicate OwnedSince(owners: Owners, before: Owners, channel: ChannelID, ids: seq<StreamID>) {
    && before.Keys <= owners.Keys
    && forall id :: id in owners ==>
         if id in before then owners[id] == before[id] else owners[id] == channel && id in ids
  }

  lemma OwnOne(owners: Owners, before: Owners, channel: ChannelID, ids: seq<StreamID>, id: StreamID)
    requires OwnedSince(owners, before, channel, ids) && id in ids && id !in owners
    ensures OwnedSince(owners[id := channel], before, channel, ids)
    ensures owners[id := channel].Keys == owners.Keys + {id}
  {
  }

  lemma {:induction false} ObservedHas(streams: seq<Stream>, n: nat)
    requires n < |streams| && !streams[n].aggregator.Calculated?
    ensures streams[n].id in ObservedIDs(streams)
  {
    if n < |streams| - 1 { ObservedHas(streams[..|streams| - 1], n); }
  }

  lemma OneMoreStream(streams: seq<Stream>, n: nat)
    requires n < |streams|
    ensures Elements(IDs(streams[..n + 1])) == Elements(IDs(streams[..n])) + {streams[n].id}
    ensures Elements(ObservedIDs(streams[..n + 1])) ==
            if streams[n].aggregator.Calculated? then Elements(ObservedIDs(streams[..n]))
            else Elements(ObservedIDs(streams[..n])) + {streams[n].id}
    ensures HasUnset(streams[..n + 1]) <==> HasUnset(streams[..n]) || streams[n].aggregator.Unset?
  {
    assert streams[..n + 1][..n] == streams[..n] && streams[..n + 1] == streams[..n] + [streams[n]];
  }

  predicate HasUnset(streams: seq<Stream>) { exists s :: s in streams && s.aggregator.Unset? }

  method ScanStreams(channel: ChannelID, streams: seq<Stream>, unique: set<StreamID>, observedBy: Owners)
    returns (bad: bool, ids: set<StreamID>, owners: Owners)
    ensures bad <==> HasUnset(streams)
    ensures !bad ==> ids == unique + Elements(IDs(streams))
    ensures !bad ==> owners.Keys == observedBy.Keys + Elements(ObservedIDs(streams))
    ensures OwnedSince(owners, observedBy, channel, ObservedIDs(streams))
  {
    hide Elements, IDs, ObservedIDs, OwnedSince, HasUnset;
    bad, ids, owners := false, unique, observedBy;
    ScanStarts(observedBy, channel, ObservedIDs(streams));
    assert streams[..0] == [];
    NoStreams();
    for n := 0 to |streams|
      invariant bad <==> HasUnset(streams[..n])
      invariant !bad ==> ids == unique + Elements(IDs(streams[..n]))
      invariant !bad ==> owners.Keys == observedBy.Keys + Elements(ObservedIDs(streams[..n]))
      invariant OwnedSince(owners, observedBy, channel, ObservedIDs(streams))
    {
      OneMoreStream(streams, n);
      if streams[n].aggregator.Unset? {
        bad := true;
        continue;
      }
      ids := ids + {streams[n].id};
      if !streams[n].aggregator.Calculated? {
        if streams[n].id !in owners {
          ObservedHas(streams, n);
          OwnOne(owners, observedBy, channel, ObservedIDs(streams), streams[n].id);
          owners := owners[streams[n].id := channel];
        }
      }
    }
    assert streams[..|streams|] == streams;
  }

  ghost predicate Repeats(found: seq<Collision>, channel: ChannelID, ids: seq<StreamID>, owners: Owners) {
    forall f :: f in found ==>
        f.channel == channel && f.stream in ids && f.stream in owners && f.owner == owners[f.stream]
  }

  lemma RepeatOne(found: seq<Collision>, channel: ChannelID, ids: seq<StreamID>, owners: Owners, id: StreamID)
    requires Repeats(found, channel, ids, owners) && id in ids
    ensures id in owners ==> Repeats(found + [Collision(channel, id, owners[id])], channel, ids, owners)
    ensures id !in owners ==> Repeats(found, channel, ids, owners[id := channel])
  {
  }

  lemma ScanStarts(before: Owners, channel: ChannelID, ids: seq<StreamID>)
    ensures Elements<StreamID>([]) == {} && OwnedSince(before, before, channel, ids)
    ensures Repeats([], channel, ids, before)
    ensures KeysAre(before, before, [])
  {
  }

  lemma NoStreams()
    ensures IDs([]) == [] && ObservedIDs([]) == [] && !HasUnset([])
  {
  }

  /** The keys known before and the given ones, nothing else. */
  ghost predicate KeysAre(owners: Owners, before: Owners, ids: seq<StreamID>) {
    forall id :: id in owners <==> id in before || id in ids
  }

  lemma KeysGrow(a: Owners, b: Owners, before: Owners, ids: seq<StreamID>, id: StreamID)
    requires KeysAre(a, before, ids) && KeysAre(b, a, [id])
    ensures KeysAre(b, before, ids + [id])
  {
    assert id in [id];
  }

  method ScanDeclared(channel: ChannelID, ids: seq<StreamID>, calculatedBy: Owners)
    returns (owners: Owners, found: seq<Collision>)
    ensures KeysAre(owners, calculatedBy, ids)
    ensures |found| + |owners| == |calculatedBy| + |ids|
    ensures OwnedSince(owners, calculatedBy, channel, ids) && Repeats(found, channel, ids, owners)
  {
    hide OwnedSince, Repeats, KeysAre, Elements;
    owners, found := calculatedBy, [];
    ScanStarts(calculatedBy, channel, ids);
    assert ids[..0] == [];
    for n := 0 to |ids|
      invariant KeysAre(owners, calculatedBy, ids[..n])
      invariant |found| + |owners| == |calculatedBy| + n
      invariant OwnedSince(owners, calculatedBy, channel, ids) && Repeats(found, channel, ids, owners)
    {
      assert ids[..n + 1] == ids[..n] + [ids[n]];
      ghost var before := owners;
      owners, found := DeclareOne(channel, ids, n, owners, found, calculatedBy);
      KeysGrow(before, owners, calculatedBy, ids[..n], ids[n]);
    }
    assert ids[..|ids|] == ids;
  }

  method DeclareOne(
    channel: ChannelID, ids: seq<StreamID>, n: nat, owners: Owners, found: seq<Collision>, ghost calculatedBy: Owners)
    returns (o: Owners, f: seq<Collision>)
    requires n < |ids| && OwnedSince(owners, calculatedBy, channel, ids) && Repeats(found, channel, ids, owners)
    ensures OwnedSince(o, calculatedBy, channel, ids) && Repeats(f, channel, ids, o)
    ensures KeysAre(o, owners, [ids[n]]) && |f| + |o| == |found| + |owners| + 1
  {
    hide OwnedSince, Repeats;
    o, f := owners, found;
    RepeatOne(found, channel, ids, owners, ids[n]);
    if ids[n] in owners {
      f := found + [Collision(channel, ids[n], owners[ids[n]])];
    } else {
      OwnOne(owners, calculatedBy, channel, ids, ids[n]);
      o := owners[ids[n] := channel];
    }
  }

  ghost predicate Shared(found: seq<Collision>, observedBy: Owners, calculatedBy: Owners) {
    forall f :: f in found ==>
      f.stream in calculatedBy && f.stream in observedBy && f.channel == calculatedBy[f.stream] &&
          f.owner == observedBy[f.stream]
  }

  lemma ShareOne(found: seq<Collision>, observedBy: Owners, calculatedBy: Owners, id: StreamID)
    requires Shared(found, observedBy, calculatedBy) && id in observedBy && id in calculatedBy
    ensures Shared(found + [Collision(calculatedBy[id], id, observedBy[id])], observedBy, calculatedBy)
  {
  }

  lemma OneMoreShared(ids: seq<StreamID>, n: nat, observed: set<StreamID>)
    requires n < |ids| && ids[n] !in ids[..n]
    ensures |Elements(ids[..n + 1]) * observed| == |Elements(ids[..n]) * observed| + if ids[n] in observed then 1 else 0
  {
    OneMoreElement(ids, n);
    var a, b := Elements(ids[..n]) * observed, Elements(ids[..n + 1]) * observed;
    if ids[n] in observed {
      assert b == a + {ids[n]};
    } else {
      assert b == a;
    }
  }

  /** Calculated streams that share their ID with an observed one, in ID order. */
  method ScanShared(observedBy: Owners, calculatedBy: Owners) returns (found: seq<Collision>)
    ensures |found| == |calculatedBy.Keys * observedBy.Keys|
    ensures Shared(found, observedBy, calculatedBy)
  {
    var drained := Drain(calculatedBy.Keys);
    var ids := Sort(drained, NatLeq);
    SameElements(drained, ids);
    PermutationKeepsNoDuplicates(drained, ids);
    found := CollectShared(ids, observedBy, calculatedBy);
    AllElements(ids, calculatedBy.Keys);
  }

  method CollectShared(ids: seq<StreamID>, observedBy: Owners, calculatedBy: Owners) returns (found: seq<Collision>)
    requires NoDuplicates(ids) && forall id :: id in ids ==> id in calculatedBy
    ensures |found| == |Elements(ids) * observedBy.Keys|
    ensures Shared(found, observedBy, calculatedBy)
  {
    found := [];
    assert Shared(found, observedBy, calculatedBy);
    assert Elements(ids[..0]) * observedBy.Keys == {};
    hide NoDuplicates, Elements, Shared;
    for n := 0 to |ids|
      invariant |found| == |Elements(ids[..n]) * observedBy.Keys| && Shared(found, observedBy, calculatedBy)
    {
      NextUnseen(ids, n);
      assert ids[n] in ids;
      OneMoreShared(ids, n, observedBy.Keys);
      if ids[n] in observedBy {
        ShareOne(found, observedBy, calculatedBy, ids[n]);
        found := found + [Collision(calculatedBy[ids[n]], ids[n], observedBy[ids[n]])];
      }
    }
    assert ids[..|ids|] == ids;
  }

  lemma AllElements<T>(s: seq<T>, t: set<T>)
    requires forall x :: x in s <==> x in t
    ensures Elements(s) == t
  {
  }

  // ------------------------------------------------------------ the whole set

  /** What the analysis has collected so far. */
  datatype Scan = Scan(
    errs: set<ChannelID>, unique: set<StreamID>, observedBy: Owners, calculatedBy: Owners, collisions: seq<Collision>)

  /** Without stream findings, the collected maps cover exactly the tallied IDs, and
      every declaration either owns its ID or collides with the owner. */
  ghost predicate Covers(scan: Scan, t: Tally) {
    && scan.unique == Support(t.ids)
    && scan.observedBy.Keys == Support(t.observed)
    && scan.calculatedBy.Keys == Support(t.declared)
    && |scan.collisions| + |scan.calculatedBy| == |t.declared|
  }

  /** Recorded owners really observe or declare their stream, and so do collisions. */
  ghost predicate Genuine(decode: Definition -> Facts, defs: map<ChannelID, Definition>, scan: Scan) {
    && (forall id :: id in scan.observedBy ==> Observes(defs, scan.observedBy[id], id))
    && (forall id :: id in scan.calculatedBy ==> Declares(decode, defs, scan.calculatedBy[id], id))
    && AllGenuine(decode, defs, scan.collisions)
  }

  ghost predicate AllGenuine(decode: Definition -> Facts, defs: map<ChannelID, Definition>, found: seq<Collision>) {
    forall f :: f in found ==>
      && Declares(decode, defs, f.channel, f.stream)
      && (Declares(decode, defs, f.owner, f.stream) || Observes(defs, f.owner, f.stream))
  }

  // Who owns a stream: the lowest channel that lists it to be observed, or declares it.

  ghost predicate LeastObserver(defs: map<ChannelID, Definition>, id: StreamID, c: ChannelID) {
    c in defs && ListsObserved(defs[c], id) && forall b :: b in defs && b < c ==> !ListsObserved(defs[b], id)
  }

  ghost predicate LeastDeclarer(
    decode: Definition -> Facts, defs: map<ChannelID, Definition>, id: StreamID, c: ChannelID)
  {
    && c in defs && DeclaresStream(decode, defs[c], id)
    && forall b :: b in defs && b < c ==> !DeclaresStream(decode, defs[b], id)
  }

  ghost predicate FirstOwners(decode: Definition -> Facts, defs: map<ChannelID, Definition>, scan: Scan) {
    && (forall id :: id in scan.observedBy ==> LeastObserver(defs, id, scan.observedBy[id]))
    && (forall id :: id in scan.calculatedBy ==> LeastDeclarer(decode, defs, id, scan.calculatedBy[id]))
  }

  ghost predicate ByOwner(found: seq<Collision>, calculatedBy: Owners) {
    forall f :: f in found ==> f.stream in calculatedBy && f.owner == calculatedBy[f.stream]
  }

  /** A channel declares what a lower one, or itself, declares first, or is the first to
      declare what another is the first to observe. */
  ghost predicate IsClash(decode: Definition -> Facts, defs: map<ChannelID, Definition>, f: Collision) {
    || (f.channel in defs && DeclaresStream(decode, defs[f.channel], f.stream) &&
          LeastDeclarer(decode, defs, f.stream, f.owner))
    || (LeastDeclarer(decode, defs, f.stream, f.channel) && LeastObserver(defs, f.stream, f.owner))
  }

  /** Without stream findings a channel scanned after all lower ones owns only what none of
      those claims. */
  lemma OwnersAreFirst(
    decode: Definition -> Facts, defs: map<ChannelID, Definition>, rest: set<ChannelID>, c: ChannelID, scan: Scan,
    next: Scan)
    requires c in rest && rest <= defs.Keys && forall b :: b in defs && b < c ==> b !in rest
    requires Covers(scan, TallyOf(decode, defs - rest)) && FirstOwners(decode, defs, scan)
    requires Genuine(decode, defs, next)
    requires OwnedSince(next.observedBy, scan.observedBy, c, ObservedIDs(defs[c].streams))
    requires OwnedSince(next.calculatedBy, scan.calculatedBy, c, DeriveFacts(decode, defs[c]).calculatedIDs)
    ensures FirstOwners(decode, defs, next)
  {
    hide TallyOf, Genuine, ObservedIDs, DeriveFacts, ListsObserved, DeclaresStream;
    forall id | id in next.observedBy ensures LeastObserver(defs, id, next.observedBy[id]) {
      if id !in scan.observedBy {
        TallyMembers(decode, defs - rest, Stream(0, Unset), id);
        ObservesIff(decode, defs, c, id);
        assert Observes(defs, c, id) by { GenuineOwner(decode, defs, next, id); }
        assert forall b :: b in defs && b < c ==> b in defs - rest;
      }
    }
    forall id | id in next.calculatedBy ensures LeastDeclarer(decode, defs, id, next.calculatedBy[id]) {
      if id !in scan.calculatedBy {
        TallyMembers(decode, defs - rest, Stream(0, Unset), id);
        ObservesIff(decode, defs, c, id);
        assert Declares(decode, defs, c, id) by { GenuineOwner(decode, defs, next, id); }
        assert forall b :: b in defs && b < c ==> b in defs - rest;
      }
    }
  }

  lemma GenuineOwner(decode: Definition -> Facts, defs: map<ChannelID, Definition>, scan: Scan, id: StreamID)
    requires Genuine(decode, defs, scan)
    ensures id in scan.observedBy ==> Observes(defs, scan.observedBy[id], id)
    ensures id in scan.calculatedBy ==> Declares(decode, defs, scan.calculatedBy[id], id)
  {
    hide Observes, Declares;
  }

  lemma ObservesIff(decode: Definition -> Facts, defs: map<ChannelID, Definition>, c: ChannelID, id: StreamID)
    ensures Observes(defs, c, id) <==> c in defs && ListsObserved(defs[c], id)
    ensures Declares(decode, defs, c, id) <==> c in defs && DeclaresStream(decode, defs[c], id)
  {
    hide ObservedIDs;
    if c in defs { IDMembers(defs[c].streams, id); }
  }

  lemma ClashesAreReal(
    decode: Definition -> Facts, defs: map<ChannelID, Definition>, scan: Scan, shared: seq<Collision>)
    requires Genuine(decode, defs, scan) && FirstOwners(decode, defs, scan)
    requires ByOwner(scan.collisions, scan.calculatedBy) && Shared(shared, scan.observedBy, scan.calculatedBy)
    ensures forall f :: f in scan.collisions + shared ==> IsClash(decode, defs, f)
  {
    hide Observes, Declares, LeastObserver, LeastDeclarer, DeclaresStream;
    forall f | f in scan.collisions ensures f.channel in defs && DeclaresStream(decode, defs[f.channel], f.stream) {
      ObservesIff(decode, defs, f.channel, f.stream);
    }
  }

  lemma SupportSum<T>(m: multiset<T>, xs: seq<T>)
    ensures Support(m + multiset(xs)) == Support(m) + Elements(xs)
  {
  }

  lemma CoversMore(decode: Definition -> Facts, scan: Scan, next: Scan, t: Tally, cd: Definition)
    requires Covers(scan, t) && !cd.tombstone
    requires next.unique == scan.unique + Elements(IDs(cd.streams))
    requires next.observedBy.Keys == scan.observedBy.Keys + Elements(ObservedIDs(cd.streams))
    requires KeysAre(next.calculatedBy, scan.calculatedBy, DeriveFacts(decode, cd).calculatedIDs)
    requires |next.collisions| + |next.calculatedBy| ==
             |scan.collisions| + |scan.calculatedBy| + |DeriveFacts(decode, cd).calculatedIDs|
    ensures Covers(next, Add(t, Cost(decode, cd)))
  {
    hide IDs, ObservedIDs, DeriveFacts, AggregatedStreams;
    var ids := DeriveFacts(decode, cd).calculatedIDs;
    SupportSum(t.ids, IDs(cd.streams));
    SupportSum(t.observed, ObservedIDs(cd.streams));
    SupportSum(t.declared, ids);
    assert next.calculatedBy.Keys == scan.calculatedBy.Keys + Elements(ids);
  }

  lemma CoversTombstone(decode: Definition -> Facts, scan: Scan, t: Tally, cd: Definition)
    requires Covers(scan, t) && cd.tombstone
    ensures Covers(scan, Add(t, Cost(decode, cd)))
  {
    hide IDs, ObservedIDs, DeriveFacts, AggregatedStreams;
    assert t.ids + multiset{} == t.ids && t.observed + multiset{} == t.observed &&
        t.declared + multiset{} == t.declared;
  }

  lemma GenuineMore(
    decode: Definition -> Facts, defs: map<ChannelID, Definition>, scan: Scan, next: Scan, c: ChannelID,
    found: seq<Collision>)
    requires Genuine(decode, defs, scan) && c in defs && !defs[c].tombstone
    requires OwnedSince(next.observedBy, scan.observedBy, c, ObservedIDs(defs[c].streams))
    requires OwnedSince(next.calculatedBy, scan.calculatedBy, c, DeriveFacts(decode, defs[c]).calculatedIDs)
    requires Repeats(found, c, DeriveFacts(decode, defs[c]).calculatedIDs, next.calculatedBy)
    requires next.collisions == scan.collisions + found
    ensures Genuine(decode, defs, next)
  {
    hide IDs, ObservedIDs, DeriveFacts;
  }

  lemma GenuineKept(decode: Definition -> Facts, defs: map<ChannelID, Definition>, scan: Scan, errs: set<ChannelID>)
    requires Genuine(decode, defs, scan)
    ensures Genuine(decode, defs, scan.(errs := errs))
  {
  }

  method ScanChannel(
    decode: Definition -> Facts, defs: map<ChannelID, Definition>, c: ChannelID, scan: Scan, ghost t: Tally)
    returns (next: Scan)
    requires c in defs && Genuine(decode, defs, scan) && (scan.errs == {} ==> Covers(scan, t))
    requires ByOwner(scan.collisions, scan.calculatedBy)
    ensures Genuine(decode, defs, next)
    ensures ByOwner(next.collisions, next.calculatedBy)
    ensures OwnedSince(next.observedBy, scan.observedBy, c, ObservedIDs(defs[c].streams))
    ensures OwnedSince(next.calculatedBy, scan.calculatedBy, c, DeriveFacts(decode, defs[c]).calculatedIDs)
    ensures next.errs == if BadStreams(defs[c]) then scan.errs + {c} else scan.errs
    ensures next.errs == {} ==> Covers(next, Add(t, Cost(decode, defs[c])))
  {
    hide Genuine, Covers, IDs, ObservedIDs, DeriveFacts, Cost, Add, HasUnset, OwnedSince, Repeats, KeysAre, Elements,
      ByOwner;
    var cd := defs[c];
    ScanStarts(scan.observedBy, c, ObservedIDs(cd.streams));
    ScanStarts(scan.calculatedBy, c, DeriveFacts(decode, cd).calculatedIDs);
    if cd.tombstone {
      if scan.errs == {} { CoversTombstone(decode, scan, t, cd); }
      return scan;
    }
    if |cd.streams| == 0 || |cd.streams| > MAX_STREAMS_PER_CHANNEL {
      GenuineKept(decode, defs, scan, scan.errs + {c});
      return scan.(errs := scan.errs + {c});
    }
    var bad, unique, observedBy := ScanStreams(c, cd.streams, scan.unique, scan.observedBy);
    var calculatedBy, found := scan.calculatedBy, [];
    if HasCalculatedStreams(cd) {
      calculatedBy, found := ScanDeclared(c, DeriveFacts(decode, cd).calculatedIDs, scan.calculatedBy);
    } else {
      NothingDeclared(decode, cd, c, scan.calculatedBy);
    }
    next := Scan(if bad then scan.errs + {c} else scan.errs, unique, observedBy, calculatedBy, scan.collisions + found);
    GenuineMore(decode, defs, scan, next, c, found);
    ByOwnerMore(scan.collisions, scan.calculatedBy, found, calculatedBy, c, DeriveFacts(decode, cd).calculatedIDs);
    if next.errs == {} { CoversMore(decode, scan, next, t, cd); }
  }

  lemma ByOwnerMore(
    collisions: seq<Collision>, before: Owners, found: seq<Collision>, owners: Owners, c: ChannelID,
    ids: seq<StreamID>)
    requires ByOwner(collisions, before) && OwnedSince(owners, before, c, ids) && Repeats(found, c, ids, owners)
    ensures ByOwner(collisions + found, owners)
  {
  }

  lemma NothingDeclared(decode: Definition -> Facts, cd: Definition, c: ChannelID, owners: Owners)
    requires !HasCalculatedStreams(cd)
    ensures var ids := DeriveFacts(decode, cd).calculatedIDs;
            ids == [] && OwnedSince(owners, owners, c, ids) && Repeats([], c, ids, owners) &&
                KeysAre(owners, owners, ids)
  {
  }

  /** Channels in ascending order, then declared streams that someone observes. */
  method Analyze(decode: Definition -> Facts, defs: map<ChannelID, Definition>) returns (r: Analysis)
    ensures r.TooManyChannels? <==> |defs| > 2000
    ensures r.Analyzed? ==> AllGenuine(decode, defs, r.collisions)
    ensures r.Analyzed? ==> forall c :: c in r.errs <==>
              && c in defs && !defs[c].tombstone
              && (|defs[c].streams| == 0 || |defs[c].streams| > 10_000 || HasUnset(defs[c].streams))
    ensures r.Analyzed? && r.errs == {} ==>
              && (forall f :: f in r.collisions ==> IsClash(decode, defs, f))
              && |r.collisions| == Clashes(TallyOf(decode, defs).observed, TallyOf(decode, defs).declared)
              && r.uniqueStreamIDs == |Support(TallyOf(decode, defs).ids)|
  {
    if |defs| > MAX_CHANNELS {
      return TooManyChannels;
    }
    hide Genuine, Covers, TallyOf, Clashes, AllGenuine, FirstOwners, ByOwner, IsClash, HasUnset;
    var scan := ScanAll(decode, defs);
    var shared := ScanShared(scan.observedBy, scan.calculatedBy);
    SharedGenuine(decode, defs, scan, shared);
    if scan.errs == {} {
      CollisionCount(scan, TallyOf(decode, defs), shared);
      ClashesAreReal(decode, defs, scan, shared);
    }
    r := Analyzed(scan.errs, |scan.unique|, scan.collisions + shared);
  }

  method ScanAll(decode: Definition -> Facts, defs: map<ChannelID, Definition>) returns (scan: Scan)
    ensures Genuine(decode, defs, scan) && ByOwner(scan.collisions, scan.calculatedBy)
    ensures forall c :: c in scan.errs <==> c in defs && BadStreams(defs[c])
    ensures scan.errs == {} ==> Covers(scan, TallyOf(decode, defs)) && FirstOwners(decode, defs, scan)
  {
    hide Genuine, Covers, TallyOf, BadStreams, FirstOwners, ByOwner;
    var drained := Drain(defs.Keys);
    var ids := Sort(drained, NatLeq);
    SameElements(drained, ids);
    PermutationKeepsNoDuplicates(drained, ids);
    scan := ScanInOrder(decode, defs, ids);
  }

  lemma LowerAreScanned(ids: seq<ChannelID>, i: nat)
    requires SortedBy(ids, NatLeq) && NoDuplicates(ids) && i < |ids|
    ensures forall b :: b in ids && b < ids[i] ==> b in ids[..i]
  {
    forall b | b in ids && b < ids[i] ensures b in ids[..i] {
      var k :| 0 <= k < |ids| && ids[k] == b;
      assert k >= i ==> NatLeq(ids[i], ids[k]);
    }
  }

  method ScanInOrder(decode: Definition -> Facts, defs: map<ChannelID, Definition>, ids: seq<ChannelID>)
    returns (scan: Scan)
    requires NoDuplicates(ids) && SortedBy(ids, NatLeq) && forall c :: c in ids <==> c in defs
    ensures Genuine(decode, defs, scan) && ByOwner(scan.collisions, scan.calculatedBy)
    ensures forall c :: c in scan.errs <==> c in defs && BadStreams(defs[c])
    ensures scan.errs == {} ==> Covers(scan, TallyOf(decode, defs)) && FirstOwners(decode, defs, scan)
  {
    hide Genuine, Covers, TallyOf, BadStreams, NoDuplicates, Cost, Add, FirstOwners, ByOwner, SortedBy, OwnedSince,
      ObservedIDs, DeriveFacts;
    scan := Scan({}, {}, map[], map[], []);
    ghost var rest := defs.Keys;
    assert defs - rest == map[];
    EmptyScan(decode, defs);
    for i := 0 to |ids|
      invariant forall c :: c in rest <==> c in defs && c !in ids[..i]
      invariant Genuine(decode, defs, scan) && ByOwner(scan.collisions, scan.calculatedBy)
      invariant forall c :: c in scan.errs <==> c in defs && c !in rest && BadStreams(defs[c])
      invariant scan.errs == {} ==> Covers(scan, TallyOf(decode, defs - rest)) && FirstOwners(decode, defs, scan)
    {
      NextUnseen(ids, i);
      assert ids[i] in ids && ids[..i + 1] == ids[..i] + [ids[i]];
      ghost var before := scan;
      scan := ScanChannel(decode, defs, ids[i], scan, TallyOf(decode, defs - rest));
      if scan.errs == {} {
        LowerAreScanned(ids, i);
        OwnersAreFirst(decode, defs, rest, ids[i], before, scan);
      }
      NextRest(decode, defs, rest, ids[i]);
      rest := rest - {ids[i]};
    }
    assert ids[..|ids|] == ids;
    assert rest == {} && defs - rest == defs;
  }

  lemma EmptyScan(decode: Definition -> Facts, defs: map<ChannelID, Definition>)
    ensures Genuine(decode, defs, Scan({}, {}, map[], map[], []))
    ensures Covers(Scan({}, {}, map[], map[], []), TallyOf(decode, map[]))
    ensures FirstOwners(decode, defs, Scan({}, {}, map[], map[], [])) && ByOwner([], map[])
  {
  }

  lemma NextRest(decode: Definition -> Facts, defs: map<ChannelID, Definition>, rest: set<ChannelID>, c: ChannelID)
    requires c in rest && rest <= defs.Keys
    ensures TallyOf(decode, defs - (rest - {c})) == Add(TallyOf(decode, defs - rest), Cost(decode, defs[c]))
  {
    hide TallyOf, Add, Cost;
    TallySet(decode, defs - rest, c, defs[c]);
    assert (defs - rest)[c := defs[c]] == defs - (rest - {c});
  }

  lemma SharedGenuine(decode: Definition -> Facts, defs: map<ChannelID, Definition>, scan: Scan, shared: seq<Collision>)
    requires Genuine(decode, defs, scan) && Shared(shared, scan.observedBy, scan.calculatedBy)
    ensures AllGenuine(decode, defs, scan.collisions + shared)
  {
    hide Observes, Declares;
  }

  /** Declarations minus owned IDs, plus IDs owned by both kinds, are the claims
      beyond each ID's first owner. */
  lemma CollisionCount(scan: Scan, t: Tally, shared: seq<Collision>)
    requires Covers(scan, t) && |shared| == |scan.calculatedBy.Keys * scan.observedBy.Keys|
    ensures |scan.collisions + shared| == Clashes(t.observed, t.declared)
  {
    var d, o := Support(t.declared), Support(t.observed);
    assert d == (d - o) + (d * o);
  }

  /** Nothing clashes exactly when no stream ID is declared twice or both declared
      and observed. */
  lemma NoClashIffSingleOwner(observed: multiset<StreamID>, declared: multiset<StreamID>)
    ensures Clashes(observed, declared) == 0 <==> forall id :: id in declared ==> declared[id] == 1 && id !in observed
  {
    var free := Support(declared) - Support(observed);
    FreeBound(declared, free);
    if forall id :: id in declared ==> declared[id] == 1 && id !in observed {
      assert free == Support(declared);
      assert declared == multiset(free);
    }
  }

  lemma FreeBound(declared: multiset<StreamID>, free: set<StreamID>)
    requires forall id :: id in free ==> id in declared
    ensures |free| <= |declared|
    ensures |free| == |declared| ==> declared == multiset(free)
  {
    assert multiset(free) <= declared;
    assert declared == multiset(free) + (declared - multiset(free));
  }

  /** The analysis and the budget of the same set agree: without stream findings the
      budget's clashes are the collisions found and its stream IDs the unique ones,
      however the budget's set was drained. */
  method AnalyzeAndMeasure(decode: Definition -> Facts, defs: map<ChannelID, Definition>)
    returns (r: Analysis, budget: Budgets.BudgetFields)
    ensures Budgets.Measures(budget, TallyOf(decode, defs))
    ensures r.Analyzed? && r.errs == {} ==> budget.clashes == |r.collisions| && |budget.streamIDs| == r.uniqueStreamIDs
  {
    hide TallyOf, Clashes, Support, BadStreams, AllGenuine, Budgets.Counts;
    var measured := new Budgets.ChannelDefinitionsBudget(decode, defs);
    measured.ValidMeasures();
    budget := measured.Fields();
    Budgets.CountsSize(budget.streamIDs, measured.tally.ids);
    r := Analyze(decode, defs);
  }
}