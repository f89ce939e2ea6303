/** Which pairs may hold a history window (llo/dev/v31/history_requirements.go). */
module HistoryRequirements {
  import opened Collections
  import opened HistoryTracking
  import opened KeyValueStates

  /** Incumbents come first, then pairs in (stream, aggregator) order. */
  predicate Precedes(incumbents: set<Pair>, a: Pair, b: Pair) {
    if a in incumbents <==> b in incumbents then PairLeq(a, b) else a in incumbents
  }

  /** The admitted depths and the denied pairs split the required ones, admission
      is only ever cut short by the cap, and nothing denied ranks before anything
      admitted. */
  ghost predicate IsAdmission(
    required: map<Pair, nat>, incumbents: set<Pair>, depths: map<Pair, nat>, denied: seq<Pair>)
  {
    && depths.Keys <= required.Keys
    && (forall k :: k in depths ==> depths[k] == required[k])
    && (forall k :: k in denied <==> k in required && k !in depths)
    && NoDuplicates(denied)
    && |depths.Keys| == Min(|required.Keys|, MAX_PAIRS)
    && (forall j, k :: j in depths && k in denied ==> Precedes(incumbents, j, k))
    && (forall i, j :: 0 <= i < j < |denied| ==> Precedes(incumbents, denied[i], denied[j]))
  }

  method Admit(required: map<Pair, nat>, incumbents: seq<Pair>) returns (depths: map<Pair, nat>, denied: seq<Pair>)
    requires NoDuplicates(incumbents)
    ensures IsAdmission(required, (set k | k in incumbents), depths, denied)
    ensures forall j, k :: j in depths && k in denied ==>
              || (j in incumbents && k !in incumbents)
              || ((j in incumbents <==> k in incumbents)
                  && (j.streamID < k.streamID || (j.streamID == k.streamID && j.aggregator < k.aggregator)))
  {
    hide Ranked;
    var keys := Rank(required, incumbents);
    depths, denied := CutAtCap(required, keys, (set k | k in incumbents));
    AdmittedFirst(required, (set k | k in incumbents), depths, denied);
  }

  lemma AdmittedFirst(required: map<Pair, nat>, incumbents: set<Pair>, depths: map<Pair, nat>, denied: seq<Pair>)
    requires IsAdmission(required, incumbents, depths, denied)
    ensures forall j, k :: j in depths && k in denied ==>
              || (j in incumbents && k !in incumbents)
              || ((j in incumbents <==> k in incumbents)
                  && (j.streamID < k.streamID || (j.streamID == k.streamID && j.aggregator < k.aggregator)))
  {
    forall j, k | j in depths && k in denied ensures Precedes(incumbents, j, k) && j != k {
    }
  }

  /** Required incumbents in order, then the remaining required pairs in order. */
  method Rank(required: map<Pair, nat>, incumbents: seq<Pair>) returns (keys: seq<Pair>)
    requires NoDuplicates(incumbents)
    ensures Ranked(keys, required.Keys, (set k | k in incumbents))
  {
    hide Ranked, SortedPairs;
    var held := Holders(required, incumbents);
    var first := SortPairs(held);
    var newcomers := SortPairs(required.Keys - held);
    keys := first + newcomers;
    RankedKeys(first, newcomers, held, required.Keys - held, (set k | k in incumbents));
    assert held + (required.Keys - held) == required.Keys;
  }

  method Holders(required: map<Pair, nat>, incumbents: seq<Pair>) returns (held: set<Pair>)
    ensures forall k :: k in held <==> k in incumbents && k in required
  {
    held := {};
    for i := 0 to |incumbents|
      invariant forall k :: k in held <==> k in incumbents[..i] && k in required
    {
      assert incumbents[..i + 1] == incumbents[..i] + [incumbents[i]];
      if incumbents[i] in required {
        held := held + {incumbents[i]};
      }
    }
    assert incumbents[..|incumbents|] == incumbents;
  }

  /** Takes keys in order until the cap is reached, and denies the rest. */
  method CutAtCap(required: map<Pair, nat>, keys: seq<Pair>, ghost incumbents: set<Pair>)
    returns (depths: map<Pair, nat>, denied: seq<Pair>)
    requires Ranked(keys, required.Keys, incumbents)
    ensures IsAdmission(required, incumbents, depths, denied)
  {
    depths, denied := Cut(required, keys);
    SplitKeys(keys, depths.Keys, denied, required.Keys, incumbents);
  }

  /** The first `n` keys with the depths they require. */
  ghost predicate Taken(required: map<Pair, nat>, keys: seq<Pair>, n: nat, depths: map<Pair, nat>) {
    && n <= |keys| && |depths.Keys| == n
    && (forall k :: k in depths <==> k in keys[..n])
    && (forall k :: k in depths ==> k in required && depths[k] == required[k])
  }

  lemma TakeOneMore(required: map<Pair, nat>, keys: seq<Pair>, n: nat, depths: map<Pair, nat>)
    requires Taken(required, keys, n, depths) && n < |keys| && keys[n] !in keys[..n] && keys[n] in required
    ensures Taken(required, keys, n + 1, depths[keys[n] := required[keys[n]]])
  {
    assert keys[..n + 1] == keys[..n] + [keys[n]];
    assert depths[keys[n] := required[keys[n]]].Keys == depths.Keys + {keys[n]};
  }

  lemma TakenSize(required: map<Pair, nat>, keys: seq<Pair>, n: nat, depths: map<Pair, nat>)
    requires Taken(required, keys, n, depths)
    ensures |depths| == n
  {
    assert |depths| == |depths.Keys|;
  }

  method Cut(required: map<Pair, nat>, keys: seq<Pair>) returns (depths: map<Pair, nat>, denied: seq<Pair>)
    requires NoDuplicates(keys) && forall k :: k in keys ==> k in required
    ensures Taken(required, keys, Min(|keys|, MAX_PAIRS), depths)
    ensures denied == keys[Min(|keys|, MAX_PAIRS)..]
  {
    hide NoDuplicates, Taken;
    depths, denied := map[], [];
    TakeNone(required, keys);
    for i := 0 to |keys|
      invariant Taken(required, keys, Min(i, MAX_PAIRS), depths) && denied == keys[Min(i, MAX_PAIRS)..i]
    {
      NextUnseen(keys, i);
      assert keys[i] in keys;
      TakenSize(required, keys, Min(i, MAX_PAIRS), depths);
      if |depths| >= MAX_PAIRS {
        denied := denied + [keys[i]];
      } else {
        TakeOneMore(required, keys, i, depths);
        depths := depths[keys[i] := required[keys[i]]];
      }
    }
  }

  lemma TakeNone(required: map<Pair, nat>, keys: seq<Pair>)
    ensures Taken(required, keys, 0, map[])
  {
  }

  /** The keys in admission order, each once. */
  ghost predicate Ranked(keys: seq<Pair>, pairs: set<Pair>, incumbents: set<Pair>) {
    && NoDuplicates(keys)
    && (forall k :: k in keys <==> k in pairs)
    && |keys| == |pairs|
    && forall i, j :: 0 <= i < j < |keys| ==> Precedes(incumbents, keys[i], keys[j])
  }

  lemma RankedKeys(first: seq<Pair>, rest: seq<Pair>, held: set<Pair>, newcomers: set<Pair>, incumbents: set<Pair>)
    requires SortedPairs(first, held) && SortedPairs(rest, newcomers)
    requires |first| == |held| && |rest| == |newcomers| && held !! newcomers
    requires held <= incumbents && newcomers !! incumbents
    ensures Ranked(first + rest, held + newcomers, incumbents)
  {
    ConcatNoDuplicates(first, rest);
    assert |held + newcomers| == |held| + |newcomers|;
    var keys := first + rest;
    forall i, j | 0 <= i < j < |keys| ensures Precedes(incumbents, keys[i], keys[j]) {
      assert i < |first| ==> keys[i] in first;
      assert j < |first| ==> keys[j] in first;
      assert i >= |first| ==> keys[i] in rest;
      assert j >= |first| ==> keys[j] in rest;
    }
  }

  lemma SplitKeys(keys: seq<Pair>, admitted: set<Pair>, denied: seq<Pair>, pairs: set<Pair>, incumbents: set<Pair>)
    requires Ranked(keys, pairs, incumbents)
    requires admitted == set k | k in keys[..Min(|keys|, MAX_PAIRS)]
    requires denied == keys[Min(|keys|, MAX_PAIRS)..]
    ensures forall k :: k in denied <==> k in pairs && k !in admitted
    ensures NoDuplicates(denied)
    ensures forall j, k :: j in admitted && k in denied ==> Precedes(incumbents, j, k)
  {
    var n := Min(|keys|, MAX_PAIRS);
    assert keys == keys[..n] + denied;
    forall k | k in denied ensures k !in admitted {
      var j :| 0 <= j < |denied| && denied[j] == k;
      assert keys[n + j] == k;
      assert k !in keys[..n];
    }
    forall j, k | j in admitted && k in denied ensures Precedes(incumbents, j, k) {
      var a :| 0 <= a < n && keys[a] == j;
      var b :| 0 <= b < |denied| && denied[b] == k;
      assert keys[n + b] == k;
    }
  }

  // ------------------------------------------------------------- consequences

  lemma PrecedesAntisymmetric(incumbents: set<Pair>, a: Pair, b: Pair)
    requires Precedes(incumbents, a, b) && Precedes(incumbents, b, a)
    ensures a == b
  {
  }

  /** Admission is a function of what is required and who holds a window: whatever
      order maps are drained in, every oracle admits and denies the same pairs. */
  lemma AdmissionIsDeterministic(
    required: map<Pair, nat>, incumbents: set<Pair>,
    d1: map<Pair, nat>, n1: seq<Pair>, d2: map<Pair, nat>, n2: seq<Pair>)
    requires IsAdmission(required, incumbents, d1, n1) && IsAdmission(required, incumbents, d2, n2)
    ensures d1 == d2 && n1 == n2
  {
    if !(d1.Keys <= d2.Keys) {
      var a :| a in d1 && a !in d2;
      if d2.Keys <= d1.Keys { SameSizeSubset(d2.Keys, d1.Keys); }
      var b :| b in d2 && b !in d1;
      PrecedesAntisymmetric(incumbents, a, b);
      assert false;
    }
    SameSizeSubset(d1.Keys, d2.Keys);
    assert d1 == d2;
    SortedIsCanonical(n1, n2, (a, b) => Precedes(incumbents, a, b));
  }

  /** A pair that already holds a window and stays required is never denied: the
      holders fit the cap, and newcomers rank behind all of them. */
  lemma IncumbentsAreNeverDenied(
    required: map<Pair, nat>, incumbents: set<Pair>, depths: map<Pair, nat>, denied: seq<Pair>, k: Pair)
    requires IsAdmission(required, incumbents, depths, denied)
    requires |incumbents| <= MAX_PAIRS
    requires k in incumbents && k in required
    ensures k in depths
  {
    if k !in depths {
      assert k in denied;
      assert |depths.Keys + {k}| == |depths.Keys| + 1;
      SubsetSize(depths.Keys + {k}, required.Keys);
      assert |incumbents - {k}| < |incumbents|;
      forall j | j in depths ensures j in incumbents - {k} {
        assert Precedes(incumbents, j, k);
      }
      SubsetSize(depths.Keys, incumbents - {k});
    }
  }
}
