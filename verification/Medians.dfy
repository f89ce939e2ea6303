/** Rank medians, characterised by counting. */
module Medians {
  import opened Collections

  /** `leq` orders by the number `f` gives. */
  ghost predicate OrdersBy<T(!new)>(leq: (T, T) -> bool, f: T -> real) {
    forall a, b :: leq(a, b) <==> f(a) <= f(b)
  }

  function AtMost<T>(f: T -> real, m: real): T -> bool { x => f(x) <= m }

  function AtLeast<T>(f: T -> real, m: real): T -> bool { x => f(x) >= m }

  lemma CountSplit<T>(s: seq<T>, k: nat, p: T -> bool)
    requires k <= |s|
    ensures Count(s, p) == Count(s[..k], p) + Count(s[k..], p)
  {
    assert s == s[..k] + s[k..];
    CountConcat(s[..k], s[k..], p);
  }

  /** In a sorted sequence everything up to position k is at most the element there, and
      everything from it on at least. */
  lemma SortedAround<T>(t: seq<T>, leq: (T, T) -> bool, f: T -> real, k: nat)
    requires SortedBy(t, leq) && k < |t| && forall a, b :: leq(a, b) ==> f(a) <= f(b)
    ensures forall x :: x in t[..k + 1] ==> f(x) <= f(t[k])
    ensures forall x :: x in t[k..] ==> f(t[k]) <= f(x)
  {
    forall x | x in t[..k + 1] ensures f(x) <= f(t[k]) {
      var i :| 0 <= i <= k && t[..k + 1][i] == x;
      assert i == k || leq(t[i], t[k]);
    }
    forall x | x in t[k..] ensures f(t[k]) <= f(x) {
      var i :| 0 <= i < |t| - k && t[k..][i] == x;
      assert i == 0 || leq(t[k], t[k + i]);
    }
  }

  /** The rank-k element is at most `m` exactly when more than k elements are. */
  lemma RankAtMost<T(!new)>(s: seq<T>, leq: (T, T) -> bool, f: T -> real, k: nat, m: real)
    requires OrdersBy(leq, f) && TotalPreorder(leq) && k < |s|
    ensures f(Sort(s, leq)[k]) <= m <==> Count(s, AtMost(f, m)) > k
  {
    hide SortedBy, TotalPreorder, Count;
    var t, p := Sort(s, leq), AtMost(f, m);
    CountPermutation(s, t, p);
    SortedAround(t, leq, f, k);
    if f(t[k]) <= m {
      CountSplit(t, k + 1, p);
      CountAll(t[..k + 1], p);
    } else {
      CountSplit(t, k, p);
      CountNone(t[k..], p);
      CountBound(t[..k], p);
    }
  }

  /** The rank-k element is at least `m` exactly when at least |s| - k elements are. */
  lemma RankAtLeast<T(!new)>(s: seq<T>, leq: (T, T) -> bool, f: T -> real, k: nat, m: real)
    requires OrdersBy(leq, f) && TotalPreorder(leq) && k < |s|
    ensures f(Sort(s, leq)[k]) >= m <==> Count(s, AtLeast(f, m)) >= |s| - k
  {
    hide SortedBy, TotalPreorder, Count;
    var t, p := Sort(s, leq), AtLeast(f, m);
    CountPermutation(s, t, p);
    SortedAround(t, leq, f, k);
    if f(t[k]) >= m {
      CountSplit(t, k, p);
      CountAll(t[k..], p);
    } else {
      CountSplit(t, k + 1, p);
      CountNone(t[..k + 1], p);
      CountBound(t[k + 1..], p);
    }
  }

  /** The rank median of timestamps. */
  function MiddleTime(s: seq<nat>): nat
    requires s != []
  {
    Sort(s, NatLeq)[|s| / 2]
  }

  // ------------------------------------------------- selections from a sequence

  /** What `view` sees of the elements it accepts, in order. */
  function Selected<T, U>(values: seq<T>, view: T -> Option<U>): seq<U> {
    if values == [] then []
    else
      (if view(values[0]).Some? then [view(values[0]).value] else []) + Selected(values[1..], view)
  }

  function Through<T, U>(view: T -> Option<U>, p: U -> bool): T -> bool { x => view(x).Some? && p(view(x).value) }

  lemma {:induction false} CountSelected<T, U>(values: seq<T>, view: T -> Option<U>, p: U -> bool)
    ensures Count(Selected(values, view), p) == Count(values, Through(view, p))
  {
    if values != [] {
      CountSelected(values[1..], view, p);
      if view(values[0]).Some? {
        assert Selected(values, view)[1..] == Selected(values[1..], view);
      } else {
        assert Selected(values, view) == Selected(values[1..], view);
      }
    }
  }

  /** With at most `b` faulty contributions and a rank at least `b` from both ends, the
      rank-k element lies between two honest ones. */
  lemma RankBetweenHonest<T, U(!new)>(
    values: seq<T>, view: T -> Option<U>, leq: (U, U) -> bool, f: U -> real, k: nat, faulty: set<nat>)
    requires OrdersBy(leq, f) && TotalPreorder(leq)
    requires |faulty| <= k < |Selected(values, view)| - |faulty|
    ensures exists i :: 0 <= i < |values| && i !in faulty &&
              Through(view, AtMost(f, f(Sort(Selected(values, view), leq)[k])))(values[i])
    ensures exists j :: 0 <= j < |values| && j !in faulty &&
              Through(view, AtLeast(f, f(Sort(Selected(values, view), leq)[k])))(values[j])
  {
    var s := Selected(values, view);
    var m := f(Sort(s, leq)[k]);
    RankAtMost(s, leq, f, k, m);
    CountSelected(values, view, AtMost(f, m));
    HonestVoter(values, Through(view, AtMost(f, m)), faulty, |faulty|);
    RankAtLeast(s, leq, f, k, m);
    CountSelected(values, view, AtLeast(f, m));
    HonestVoter(values, Through(view, AtLeast(f, m)), faulty, |faulty|);
  }

  /** Ranks respect a pointwise order: if every element is smaller under `f` than under
      `g`, so is the element of each rank, however the elements are arranged. */
  lemma RankMonotone<T(!new)>(
    s: seq<T>, t: seq<T>, fleq: (T, T) -> bool, f: T -> real, gleq: (T, T) -> bool, g: T -> real, k: nat)
    requires OrdersBy(fleq, f) && TotalPreorder(fleq) && OrdersBy(gleq, g) && TotalPreorder(gleq)
    requires multiset(s) == multiset(t) && k < |s| && k < |t|
    requires forall x :: x in s ==> f(x) <= g(x)
    ensures f(Sort(s, fleq)[k]) <= g(Sort(t, gleq)[k])
  {
    var m := g(Sort(t, gleq)[k]);
    RankAtMost(t, gleq, g, k, m);
    CountPermutation(s, t, AtMost(g, m));
    CountWeaker(s, AtMost(g, m), AtMost(f, m));
    RankAtMost(s, fleq, f, k, m);
  }

  lemma {:induction false} CountWeaker<T>(s: seq<T>, p: T -> bool, q: T -> bool)
    requires forall x :: x in s && p(x) ==> q(x)
    ensures Count(s, p) <= Count(s, q)
  {
    if s != [] { CountWeaker(s[1..], p, q); }
  }

  lemma {:induction false} SelectedNext<T, U>(values: seq<T>, i: nat, view: T -> Option<U>)
    requires i < |values|
    ensures Selected(values[..i + 1], view) ==
            Selected(values[..i], view) + if view(values[i]).Some? then [view(values[i]).value] else []
  {
    assert values[..i + 1] == values[..i] + [values[i]];
    SelectedConcat(values[..i], [values[i]], view);
    assert [values[i]][1..] == [];
  }

  lemma {:induction false} SelectedConcat<T, U>(a: seq<T>, b: seq<T>, view: T -> Option<U>)
    ensures Selected(a + b, view) == Selected(a, view) + Selected(b, view)
  {
    if a == [] {
      assert a + b == b;
    } else {
      assert (a + b)[1..] == a[1..] + b && (a + b)[0] == a[0];
      SelectedConcat(a[1..], b, view);
      var first := if view(a[0]).Some? then [view(a[0]).value] else [];
      assert Selected(a + b, view) == first + (Selected(a[1..], view) + Selected(b, view));
      assert Selected(a, view) == first + Selected(a[1..], view);
    }
  }

  lemma {:induction false} SameLength<T, U, V>(values: seq<T>, f: T -> Option<U>, g: T -> Option<V>)
    requires forall v :: v in values ==> (f(v).Some? <==> g(v).Some?)
    ensures |Selected(values, f)| == |Selected(values, g)|
  {
    if values != [] { SameLength(values[1..], f, g); }
  }

  method Collect<T, U>(values: seq<T>, view: T -> Option<U>) returns (r: seq<U>)
    ensures r == Selected(values, view)
  {
    r := [];
    for i := 0 to |values|
      invariant r == Selected(values[..i], view)
    {
      SelectedNext(values, i, view);
      var seen := view(values[i]);
      if seen.Some? {
        r := r + [seen.value];
      } else {
        assert r + [] == r;
      }
    }
    assert values[..|values|] == values;
  }

  /** The same for two views of the same elements: if one never sees more than the
      other, neither does its rank median. */
  lemma RankMonotoneViews<T>(values: seq<T>, f: T -> Option<int>, g: T -> Option<int>, k: nat)
    requires forall v :: v in values ==> (f(v).Some? <==> g(v).Some?) && (f(v).Some? ==> f(v).value <= g(v).value)
    requires k < |Selected(values, f)| && k < |Selected(values, g)|
    ensures Sort(Selected(values, f), IntLeq)[k] <= Sort(Selected(values, g), IntLeq)[k]
  {
    hide Selected, SortedBy, TotalPreorder, OrdersBy, Count;
    IntOrders();
    var m := IntValue(Sort(Selected(values, g), IntLeq)[k]);
    RankAtMost(Selected(values, g), IntLeq, IntValue, k, m);
    CountSelected(values, g, AtMost(IntValue, m));
    CountSelected(values, f, AtMost(IntValue, m));
    CountWeaker(values, Through(g, AtMost(IntValue, m)), Through(f, AtMost(IntValue, m)));
    RankAtMost(Selected(values, f), IntLeq, IntValue, k, m);
  }

  function IntValue(x: int): real { x as real }

  function NatValue(t: nat): real { t as real }

  lemma NatOrders()
    ensures OrdersBy(NatLeq, NatValue) && TotalPreorder(NatLeq)
  {
  }

  lemma IntOrders()
    ensures OrdersBy(IntLeq, IntValue) && TotalPreorder(IntLeq)
  {
  }

  /** More than half of `n` things are at most the median, at least the rest is at least it,
      and one of them is it; in an even number the higher middle one. */
  predicate MiddleCounts(n: nat, atMost: nat, atLeast: nat) { atMost > n / 2 && atLeast >= n - n / 2 }

  /** The rank median of what `view` sees, by counting the elements themselves. */
  lemma MiddleByCounting<T, U(!new)>(
    values: seq<T>, view: T -> Option<U>, leq: (U, U) -> bool, f: U -> real,
    all: T -> bool, low: T -> bool, high: T -> bool)
    requires OrdersBy(leq, f) && TotalPreorder(leq) && Selected(values, view) != []
    requires forall v :: v in values ==> (all(v) <==> view(v).Some?)
    requires var mid := f(Sort(Selected(values, view), leq)[|Selected(values, view)| / 2]);
             forall v :: v in values ==>
               && (low(v) <==> view(v).Some? && f(view(v).value) <= mid)
               && (high(v) <==> view(v).Some? && f(view(v).value) >= mid)
    ensures |Selected(values, view)| == Count(values, all)
    ensures MiddleCounts(Count(values, all), Count(values, low), Count(values, high))
  {
    hide OrdersBy, TotalPreorder, Selected, SortedBy, Count;
    var s := Selected(values, view);
    var k := |s| / 2;
    var mid := f(Sort(s, leq)[k]);
    RankAtMost(s, leq, f, k, mid);
    RankAtLeast(s, leq, f, k, mid);
    CountSelected(values, view, AtMost(f, mid));
    CountSelected(values, view, AtLeast(f, mid));
    SameCount(values, Through(view, AtMost(f, mid)), low);
    SameCount(values, Through(view, AtLeast(f, mid)), high);
    SeenCount(values, view, all);
  }

  /** Where the elements stand that `p` accepts. */
  function Places<T>(s: seq<T>, p: T -> bool): set<nat> { set i: nat | i < |s| && p(s[i]) }

  lemma {:induction false} CountPlaces<T>(s: seq<T>, p: T -> bool)
    ensures Count(s, p) == |Places(s, p)|
    decreases |s|
  {
    hide Count;
    if s == [] {
      CountNone(s, p);
      assert Places(s, p) == {};
    } else {
      var n := |s| - 1;
      CountPlaces(s[..n], p);
      CountNext(s, n, p);
      assert s[..n + 1] == s;
      PlacesNext(s, n, p);
    }
  }

  lemma PlacesNext<T>(s: seq<T>, n: nat, p: T -> bool)
    requires |s| == n + 1
    ensures |Places(s, p)| == |Places(s[..n], p)| + if p(s[n]) then 1 else 0
  {
    assert Places(s, p) == Places(s[..n], p) + if p(s[n]) then {n} else {};
  }

  lemma SameCount<T>(s: seq<T>, p: T -> bool, q: T -> bool)
    requires forall x :: x in s ==> (p(x) <==> q(x))
    ensures Count(s, p) == Count(s, q)
  {
    CountWeaker(s, p, q);
    CountWeaker(s, q, p);
  }

  lemma {:induction false} SeenCount<T, U>(values: seq<T>, view: T -> Option<U>, all: T -> bool)
    requires forall v :: v in values ==> (all(v) <==> view(v).Some?)
    ensures |Selected(values, view)| == Count(values, all)
  {
    if values != [] { SeenCount(values[1..], view, all); }
  }
}
