/** Judging stream values fresh from replicated data (llo/dev/v31/freshness.go). */
module Freshness {
  import opened Collections
  import opened Medians

  const MAX_AGE_ROUNDS: nat := 6
  const WINDOW: nat := MAX_AGE_ROUNDS + 1
  const MAX_INT64: nat := 0x7FFF_FFFF_FFFF_FFFF

  // ---------------------------------------------------------- the agreed window

  /** The window of the next round: its timestamp appended, the oldest dropped. */
  function AppendAgreedTimestamp(prev: seq<nat>, ts: nat): seq<nat> {
    var n := Min(|prev| + 1, WINDOW);
    prev[Max(0, |prev| + 1 - n)..] + [ts]
  }

  /** The agreed timestamp of round `at`, from a window that ends with round `seqNr`. */
  function AgreedTimestampAt(window: seq<nat>, seqNr: nat, at: nat): Option<nat> {
    if at > seqNr || seqNr - at >= |window| then None else Some(window[|window| - 1 - (seqNr - at)])
  }

  /** The window after a run of consecutive rounds with these agreed timestamps. */
  function WindowAfter(log: seq<nat>): seq<nat> {
    if log == [] then [] else AppendAgreedTimestamp(WindowAfter(log[..|log| - 1]), log[|log| - 1])
  }

  /** The window is the tail of the full log. */
  lemma {:induction false} WindowIsTail(log: seq<nat>)
    ensures WindowAfter(log) == LastN(log, Min(|log|, WINDOW))
  {
    if log != [] {
      hide AppendAgreedTimestamp;
      WindowIsTail(log[..|log| - 1]);
      AppendToTail(log[..|log| - 1], log[|log| - 1]);
      assert log == log[..|log| - 1] + [log[|log| - 1]];
    }
  }

  lemma AppendToTail(log: seq<nat>, ts: nat)
    ensures AppendAgreedTimestamp(LastN(log, Min(|log|, WINDOW)), ts) == LastN(log + [ts], Min(|log| + 1, WINDOW))
  {
  }

  /** Over every run the window answers as the full log would for every round it covers,
      and once it is full it covers every round within the age bound. */
  lemma WindowAnswersLikeTheLog(log: seq<nat>, seqNr: nat, at: nat)
    ensures at <= seqNr && seqNr - at < Min(|log|, WINDOW) ==>
              AgreedTimestampAt(WindowAfter(log), seqNr, at) == Some(log[|log| - 1 - (seqNr - at)])
    ensures at > seqNr || seqNr - at >= Min(|log|, WINDOW) ==> AgreedTimestampAt(WindowAfter(log), seqNr, at) == None
    ensures |log| >= 7 && at <= seqNr && seqNr - at <= 6 ==>
              AgreedTimestampAt(WindowAfter(log), seqNr, at).Some?
  {
    hide AppendAgreedTimestamp;
    WindowIsTail(log);
  }

  // ------------------------------------------------------------- round interval

  /** The timestamps of each two consecutive rounds. */
  function Steps(window: seq<nat>): (s: seq<(nat, nat)>)
    ensures |s| == if window == [] then 0 else |window| - 1
    ensures forall i :: 0 <= i < |s| ==> s[i] == (window[i], window[i + 1])
  {
    if window == [] then [] else seq(|window| - 1, i requires 0 <= i < |window| - 1 => (window[i], window[i + 1]))
  }

  function Rise(step: (nat, nat)): Option<nat> { if step.1 > step.0 then Some(step.1 - step.0) else None }

  /** The positive steps between consecutive timestamps. */
  function Intervals(window: seq<nat>): seq<nat> { Selected(Steps(window), Rise) }

  function Rises(): ((nat, nat)) -> bool { (s: (nat, nat)) => s.1 > s.0 }

  function RisesUpTo(m: nat): ((nat, nat)) -> bool { (s: (nat, nat)) => s.1 > s.0 && s.1 <= s.0 + m }

  function RisesFrom(m: nat): ((nat, nat)) -> bool { (s: (nat, nat)) => s.1 > s.0 && s.1 >= s.0 + m }

  /** The median of the rises between consecutive timestamps, by counting them. */
  predicate IntervalCounts(window: seq<nat>, m: nat) {
    MiddleCounts(Count(Steps(window), Rises()), Count(Steps(window), RisesUpTo(m)), Count(Steps(window), RisesFrom(m)))
  }

  lemma IntervalsByCounting(window: seq<nat>)
    ensures |Intervals(window)| == Count(Steps(window), Rises())
    ensures Intervals(window) != [] ==>
              IntervalCounts(window, Sort(Intervals(window), NatLeq)[|Intervals(window)| / 2])
  {
    hide Selected, Count, MiddleCounts, SortedBy, OrdersBy, TotalPreorder;
    SeenCount(Steps(window), Rise, Rises());
    if Intervals(window) != [] {
      NatOrders();
      var m := Sort(Intervals(window), NatLeq)[|Intervals(window)| / 2];
      MiddleByCounting<(nat, nat), nat>(Steps(window), Rise, NatLeq, NatValue, Rises(), RisesUpTo(m), RisesFrom(m));
    }
  }

  /** The median interval, floored at the configured one; zero when the cadence is unknown. */
  method RoundIntervalEstimate(window: seq<nat>, configured: nat) returns (r: nat)
    requires configured <= MAX_INT64
    ensures r <= MAX_INT64
    ensures Count(Steps(window), Rises()) == 0 ==> r == 0
    ensures Count(Steps(window), Rises()) > 0 ==>
              exists m: nat :: IntervalCounts(window, m) && r == Max(Min(m, MAX_INT64), configured)
  {
    hide Selected, Count, IntervalCounts;
    var intervals: seq<nat> := [];
    assert Steps(window)[..0] == [];
    NoRise();
    if |window| > 0 {
      for i := 1 to |window|
        invariant intervals == Selected(Steps(window)[..i - 1], Rise)
      {
        SelectedNext(Steps(window), i - 1, Rise);
        assert intervals + [] == intervals;
        if window[i] > window[i - 1] {
          intervals := intervals + [window[i] - window[i - 1]];
        }
      }
    }
    assert Steps(window)[..|Steps(window)|] == Steps(window);
    IntervalsByCounting(window);
    if |intervals| == 0 {
      return 0;
    }
    r := Max(Min(Sort(intervals, NatLeq)[|intervals| / 2], MAX_INT64), configured);
  }

  lemma NoRise()
    ensures Selected([], Rise) == []
  {
  }

  /** As long as fewer than half of the intervals are gaps a stall left, the median lies
      between two ordinary intervals. */
  lemma MedianAbsorbsStalls(intervals: seq<nat>, stalls: set<nat>)
    requires |intervals| > 2 * |stalls|
    ensures var m := Sort(intervals, NatLeq)[|intervals| / 2];
            && (exists i :: 0 <= i < |intervals| && i !in stalls && intervals[i] <= m)
            && (exists i :: 0 <= i < |intervals| && i !in stalls && m <= intervals[i])
  {
    hide SortedBy, Count, OrdersBy, TotalPreorder;
    NatOrders();
    var k := |intervals| / 2;
    var m := NatValue(Sort(intervals, NatLeq)[k]);
    RankAtMost(intervals, NatLeq, NatValue, k, m);
    HonestVoter(intervals, AtMost(NatValue, m), stalls, |stalls|);
    RankAtLeast(intervals, NatLeq, NatValue, k, m);
    HonestVoter(intervals, AtLeast(NatValue, m), stalls, |stalls|);
  }

  // ------------------------------------------------------------------ selection

  datatype Contribution<V> = Contribution(value: V, cycleStart: nat)

  /** What a round judges contributions by. */
  datatype Judge = Judge(seqNr: nat, now: nat, window: seq<nat>, roundInterval: nat)

  /** The age bound as computed in 64 bits; zero disables it. */
  function MaxAge(roundInterval: nat): nat { (MAX_AGE_ROUNDS * roundInterval) % TWO_64 }

  predicate TooManyRounds(j: Judge, cycleStart: nat) { cycleStart > j.seqNr || j.seqNr - cycleStart > MAX_AGE_ROUNDS }

  /** Older than the age bound, by the agreed time of the round it was gathered in. */
  predicate StaleByTime(j: Judge, cycleStart: nat) {
    && !TooManyRounds(j, cycleStart)
    && var then_ := AgreedTimestampAt(j.window, j.seqNr, cycleStart);
       then_.Some? && MaxAge(j.roundInterval) > 0 && j.now > then_.value &&
           j.now - then_.value > MaxAge(j.roundInterval)
  }

  predicate IsFresh(j: Judge, cycleStart: nat) {
    && !TooManyRounds(j, cycleStart)
    && AgreedTimestampAt(j.window, j.seqNr, cycleStart).Some?
    && !StaleByTime(j, cycleStart)
  }

  function IfFresh<V>(j: Judge): Contribution<V> -> Option<V> {
    (c: Contribution<V>) => if IsFresh(j, c.cycleStart) then Some(c.value) else None
  }

  function IfNotTimeStale<V>(j: Judge): Contribution<V> -> Option<V> {
    (c: Contribution<V>) => if StaleByTime(j, c.cycleStart) then None else Some(c.value)
  }

  /** The fresh values if they reach the floor, else everything not stale by time. */
  function Chosen<V>(j: Judge, contributions: seq<Contribution<V>>, minContributions: nat): seq<V> {
    var recent := Selected(contributions, IfFresh<V>(j));
    if |recent| >= minContributions then recent else Selected(contributions, IfNotTimeStale<V>(j))
  }

  method SelectFresh<V>(j: Judge, contributions: seq<Contribution<V>>, minContributions: nat) returns (r: seq<V>)
    ensures r == Chosen(j, contributions, minContributions)
  {
    hide Selected, AgreedTimestampAt, MaxAge;
    var maxAge := MaxAge(j.roundInterval);
    var recent: seq<V> := [];
    var fallback: seq<V> := [];
    var stale := 0;
    assert contributions[..0] == [];
    NothingSelected<V>(j);
    for i := 0 to |contributions|
      invariant recent == Selected(contributions[..i], IfFresh<V>(j))
      invariant fallback == Selected(contributions[..i], IfNotTimeStale<V>(j))
      invariant stale == 0 ==> fallback == recent
      invariant |recent| <= |fallback| && (|recent| == |fallback| ==> recent == fallback)
    {
      SelectedNext(contributions, i, IfFresh<V>(j));
      SelectedNext(contributions, i, IfNotTimeStale<V>(j));
      var c := contributions[i];
      assert recent + [] == recent && fallback + [] == fallback;
      if c.cycleStart > j.seqNr || j.seqNr - c.cycleStart > MAX_AGE_ROUNDS {
        fallback := fallback + [c.value];
      } else {
        var then_ := AgreedTimestampAt(j.window, j.seqNr, c.cycleStart);
        if then_.None? {
          fallback := fallback + [c.value];
        } else if maxAge > 0 && j.now > then_.value && j.now - then_.value > maxAge {
          assert StaleByTime(j, c.cycleStart);
        } else {
          recent, fallback := recent + [c.value], fallback + [c.value];
          continue;
        }
      }
      stale := stale + 1;
    }
    assert contributions[..|contributions|] == contributions;
    if stale == 0 || |recent| >= minContributions || |fallback| == |recent| {
      r := recent;
    } else {
      r := fallback;
    }
  }

  lemma NothingSelected<V>(j: Judge)
    ensures Selected([], IfFresh<V>(j)) == [] && Selected([], IfNotTimeStale<V>(j)) == []
  {
  }

  /** Selects per stream, whatever order the streams come in. */
  method SelectFreshContributions<V>(j: Judge, byStream: map<nat, seq<Contribution<V>>>, minContributions: nat)
    returns (out: map<nat, seq<V>>)
    ensures out.Keys == byStream.Keys
    ensures forall sid :: sid in out ==> out[sid] == Chosen(j, byStream[sid], minContributions)
  {
    hide Chosen;
    var todo := byStream.Keys;
    out := map[];
    while todo != {}
      invariant todo <= byStream.Keys && out.Keys == byStream.Keys - todo
      invariant forall sid :: sid in out ==> out[sid] == Chosen(j, byStream[sid], minContributions)
      decreases |todo|
    {
      var sid :| sid in todo;
      var chosen := SelectFresh(j, byStream[sid], minContributions);
      out, todo := out[sid := chosen], todo - {sid};
    }
  }

  /** Where the i-th selected value came from. */
  function Origins<T, U>(values: seq<T>, view: T -> Option<U>, from: nat): seq<nat> {
    if values == [] then []
    else (if view(values[0]).Some? then [from] else []) + Origins(values[1..], view, from + 1)
  }

  /** A selection is an order-preserving subsequence. */
  lemma {:induction false} SelectionKeepsOrder<T, U>(values: seq<T>, view: T -> Option<U>, from: nat)
    ensures var o := Origins(values, view, from);
            && |o| == |Selected(values, view)|
            && (forall i :: 0 <= i < |o| ==>
                  from <= o[i] < from + |values| && view(values[o[i] - from]) == Some(Selected(values, view)[i]))
            && (forall i, k :: 0 <= i < k < |o| ==> o[i] < o[k])
  {
    if values != [] {
      SelectionKeepsOrder(values[1..], view, from + 1);
    }
  }

  // Age by the fields of the judge: the round a value was gathered in lies at most six back
  // and in the window, and by the agreed time of that round the value is no older than six
  // round intervals, computed in 64 bits, where that bound is not zero.

  predicate InReach(j: Judge, cycleStart: nat) {
    cycleStart <= j.seqNr <= cycleStart + 6 && j.seqNr - cycleStart < |j.window|
  }

  predicate Aged(j: Judge, cycleStart: nat) {
    && InReach(j, cycleStart)
    && var bound := (6 * j.roundInterval) % 0x1_0000_0000_0000_0000;
       bound > 0 && j.now > j.window[|j.window| - 1 - (j.seqNr - cycleStart)] + bound
  }

  function IsRecent<V>(j: Judge): Contribution<V> -> bool {
    (c: Contribution<V>) => InReach(j, c.cycleStart) && !Aged(j, c.cycleStart)
  }

  function NotAged<V>(j: Judge): Contribution<V> -> bool { (c: Contribution<V>) => !Aged(j, c.cycleStart) }

  /** The places `o`, ascending, hold the chosen values and are exactly those where `keep`
      holds. */
  ghost predicate Picks<V>(
    contributions: seq<Contribution<V>>, keep: Contribution<V> -> bool, chosen: seq<V>, o: seq<nat>)
  {
    && |o| == |chosen|
    && (forall i, k :: 0 <= i < k < |o| ==> o[i] < o[k])
    && (forall i :: 0 <= i < |o| ==> o[i] < |contributions| && contributions[o[i]].value == chosen[i])
    && (forall k: nat :: k < |contributions| ==> (k in o <==> keep(contributions[k])))
  }

  /** Exactly the recent contributions are chosen if they reach the floor, and otherwise all
      but the aged ones, in the order they came. */
  lemma ChosenIff<V>(j: Judge, contributions: seq<Contribution<V>>, minContributions: nat)
    ensures Count(contributions, IsRecent<V>(j)) >= minContributions ==>
              exists o :: Picks(contributions, IsRecent<V>(j), Chosen(j, contributions, minContributions), o)
    ensures Count(contributions, IsRecent<V>(j)) < minContributions ==>
              exists o :: Picks(contributions, NotAged<V>(j), Chosen(j, contributions, minContributions), o)
  {
    hide Selected, Count, IsFresh, StaleByTime, InReach, Aged, Picks;
    forall c: nat { AgeIff(j, c); }
    SeenCount(contributions, IfFresh<V>(j), IsRecent<V>(j));
    if Count(contributions, IsRecent<V>(j)) >= minContributions {
      SelectionPicks(contributions, IfFresh<V>(j), IsRecent<V>(j));
      assert Chosen(j, contributions, minContributions) == Selected(contributions, IfFresh<V>(j));
    } else {
      SelectionPicks(contributions, IfNotTimeStale<V>(j), NotAged<V>(j));
      assert Chosen(j, contributions, minContributions) == Selected(contributions, IfNotTimeStale<V>(j));
    }
  }

  lemma SelectionPicks<V>(
    contributions: seq<Contribution<V>>, view: Contribution<V> -> Option<V>, keep: Contribution<V> -> bool)
    requires forall c :: c in contributions ==> (view(c).Some? <==> keep(c))
    requires forall c :: c in contributions && view(c).Some? ==> view(c).value == c.value
    ensures Picks(contributions, keep, Selected(contributions, view), Origins(contributions, view, 0))
  {
    hide Selected, Origins;
    SelectionKeepsOrder(contributions, view, 0);
    forall k: nat | k < |contributions|
      ensures k in Origins(contributions, view, 0) <==> keep(contributions[k])
    {
      OriginIff(contributions, view, 0, k);
    }
  }

  lemma AgeIff(j: Judge, cycleStart: nat)
    ensures IsFresh(j, cycleStart) <==> InReach(j, cycleStart) && !Aged(j, cycleStart)
    ensures StaleByTime(j, cycleStart) <==> Aged(j, cycleStart)
  {
  }

  lemma {:induction false} OriginIff<T, U>(values: seq<T>, view: T -> Option<U>, from: nat, k: nat)
    requires from <= k < from + |values|
    ensures k in Origins(values, view, from) <==> view(values[k - from]).Some?
  {
    var rest := Origins(values[1..], view, from + 1);
    assert k in Origins(values, view, from) <==> k in rest || (k == from && view(values[0]).Some?);
    if k == from { LaterOrigins(values[1..], view, from + 1); } else { OriginIff(values[1..], view, from + 1, k); }
  }

  lemma {:induction false} LaterOrigins<T, U>(values: seq<T>, view: T -> Option<U>, from: nat)
    ensures forall k :: k in Origins(values, view, from) ==> from <= k
  {
    if values != [] { LaterOrigins(values[1..], view, from + 1); }
  }

  /** Whatever is chosen comes from the contributions in their order, and none of it is
      older in time than six round intervals, even where that product overflows. */
  lemma ChosenIsNeverTimeStale<V>(j: Judge, contributions: seq<Contribution<V>>, minContributions: nat)
    requires 0 < j.roundInterval <= MAX_INT64
    ensures exists o: seq<nat> ::
              && |o| == |Chosen(j, contributions, minContributions)|
              && (forall i, k :: 0 <= i < k < |o| ==> o[i] < o[k])
              && forall i :: 0 <= i < |o| ==>
                   && o[i] < |contributions|
                   && contributions[o[i]].value == Chosen(j, contributions, minContributions)[i]
                   && WithinAge(j, contributions[o[i]].cycleStart)
  {
    hide Selected, AgreedTimestampAt, WithinAge, IsFresh, StaleByTime, Origins;
    var view := if |Selected(contributions, IfFresh<V>(j))| >= minContributions then IfFresh<V>(j)
        else IfNotTimeStale<V>(j);
    SelectionKeepsOrder(contributions, view, 0);
    var o := Origins(contributions, view, 0);
    assert Chosen(j, contributions, minContributions) == Selected(contributions, view);
    forall i | 0 <= i < |o|
      ensures contributions[o[i]].value == Chosen(j, contributions, minContributions)[i]
      ensures WithinAge(j, contributions[o[i]].cycleStart)
    {
      assert view(contributions[o[i]]).Some?;
      NotStaleIsWithin(j, contributions[o[i]].cycleStart);
    }
  }

  lemma NotStaleIsWithin(j: Judge, cycleStart: nat)
    requires 0 < j.roundInterval <= MAX_INT64
    ensures IsFresh(j, cycleStart) || !StaleByTime(j, cycleStart) ==> WithinAge(j, cycleStart)
  {
    hide AgreedTimestampAt;
    AgeBoundIsPositive(j.roundInterval);
  }

  /** A product that wraps never wraps to zero, so it tightens the bound and does not
      disable it: no multiple of 2^64 is six times a positive 63-bit number. */
  lemma AgeBoundIsPositive(roundInterval: nat)
    requires 0 < roundInterval <= MAX_INT64
    ensures 0 < MaxAge(roundInterval) <= MAX_AGE_ROUNDS * roundInterval
  {
    var q := (MAX_AGE_ROUNDS * roundInterval) / TWO_64;
    assert MAX_AGE_ROUNDS * roundInterval == q * TWO_64 + MaxAge(roundInterval);
    assert 0 <= q < 3;
  }

  /** Being stale by time means being older than six round intervals, for every judge with
      that interval, exactly when the product does not wrap. */
  lemma AgeBoundIsExact(roundInterval: nat)
    requires 0 < roundInterval <= MAX_INT64
    ensures (forall j: Judge, cycleStart: nat :: j.roundInterval == roundInterval ==>
               (StaleByTime(j, cycleStart) <==> !WithinAge(j, cycleStart)))
       <==> MAX_AGE_ROUNDS * roundInterval < TWO_64
  {
    AgeBoundIsPositive(roundInterval);
    if MAX_AGE_ROUNDS * roundInterval >= TWO_64 {
      var j := Judge(0, MaxAge(roundInterval) + 1, [0], roundInterval);
      assert StaleByTime(j, 0) && WithinAge(j, 0);
    }
  }

  /** Gathered in a round the bounds do not cover, or recently enough. */
  predicate WithinAge(j: Judge, cycleStart: nat) {
    || TooManyRounds(j, cycleStart)
    || AgreedTimestampAt(j.window, j.seqNr, cycleStart).None?
    || j.now <= AgreedTimestampAt(j.window, j.seqNr, cycleStart).value + MAX_AGE_ROUNDS * j.roundInterval
  }
}
