/** Sorting, counting and option types shared by the models.

    The source sorts with `sort.Slice` and `slices.Sort`, and drains maps in an
    unspecified order before sorting. `Sort` stands for both sort functions and
    promises only what they do: a sorted permutation.
 */
module Collections {

  /** One more than the largest unsigned 64-bit number. */
  const TWO_64: nat := 0x1_0000_0000_0000_0000

  newtype byte = x: int | 0 <= x < 256

  datatype Option<+T> = None | Some(value: T)

  datatype Result<+T, +E> = Ok(value: T) | Err(error: E)

  function Min(a: int, b: int): (r: int)
    ensures r <= a && r <= b && (r == a || r == b)
  {
    if a <= b then a else b
  }

  function Max(a: int, b: int): (r: int)
    ensures r >= a && r >= b && (r == a || r == b)
  {
    if a >= b then a else b
  }

  function LastN<T>(s: seq<T>, n: nat): seq<T>
    requires n <= |s|
  {
    s[|s| - n..]
  }

  // ---------------------------------------------------------------- sorting

  lemma {:induction false} LeastOf(s: set<nat>) returns (m: nat)
    requires s != {}
    ensures m in s && forall x :: x in s ==> m <= x
    decreases |s|
  {
    m :| m in s;
    var rest := s - {m};
    assert forall x :: x in s ==> x == m || x in rest;
    if rest != {} {
      var n := LeastOf(rest);
      if n < m { m := n; }
    }
  }

  ghost predicate TotalPreorder<T(!new)>(leq: (T, T) -> bool) {
    && (forall x, y :: leq(x, y) || leq(y, x))
    && (forall x, y, z :: leq(x, y) && leq(y, z) ==> leq(x, z))
  }

  ghost predicate SortedBy<T>(s: seq<T>, leq: (T, T) -> bool) {
    forall i, j :: 0 <= i < j < |s| ==> leq(s[i], s[j])
  }

  ghost predicate NoDuplicates<T>(s: seq<T>) {
    forall i, j :: 0 <= i < j < |s| ==> s[i] != s[j]
  }

  function Insert<T>(x: T, s: seq<T>, leq: (T, T) -> bool): (r: seq<T>)
    ensures multiset(r) == multiset(s) + multiset{x}
  {
    if s == [] || leq(x, s[0]) then [x] + s
    else
      assert s == [s[0]] + s[1..];
      [s[0]] + Insert(x, s[1..], leq)
  }

  lemma {:induction false} InsertSorted<T(!new)>(x: T, s: seq<T>, leq: (T, T) -> bool)
    requires TotalPreorder(leq)
    requires SortedBy(s, leq)
    ensures SortedBy(Insert(x, s, leq), leq)
  {
    if s != [] && !leq(x, s[0]) {
      InsertSorted(x, s[1..], leq);
      var rest := Insert(x, s[1..], leq);
      forall j | 0 <= j < |rest| ensures leq(s[0], rest[j]) {
        assert rest[j] in multiset(rest);
        assert rest[j] == x || rest[j] in s[1..];
      }
    }
  }

  /** The sorted permutation that `sort.Slice` leaves behind. */
  function Sort<T(!new)>(s: seq<T>, leq: (T, T) -> bool): (r: seq<T>)
    requires TotalPreorder(leq)
    ensures SortedBy(r, leq)
    ensures multiset(r) == multiset(s)
    ensures |r| == |s|
  {
    if s == [] then []
    else
      assert s == [s[0]] + s[1..];
      var rest := Sort(s[1..], leq);
      InsertSorted(s[0], rest, leq);
      var r := Insert(s[0], rest, leq);
      assert |multiset(r)| == |multiset(s)|;
      r
  }

  predicate NatLeq(a: nat, b: nat) { a <= b }

  predicate IntLeq(a: int, b: int) { a <= b }

  /** A sequence and a permutation of it hold the same elements. */
  lemma SameElements<T>(a: seq<T>, b: seq<T>)
    requires multiset(a) == multiset(b)
    ensures forall x :: x in a <==> x in b
  {
    forall x ensures x in a <==> x in b {
      assert x in a <==> x in multiset(a);
      assert x in b <==> x in multiset(b);
    }
  }

  lemma PermutationKeepsNoDuplicates<T>(a: seq<T>, b: seq<T>)
    requires multiset(a) == multiset(b)
    requires NoDuplicates(a)
    ensures NoDuplicates(b)
  {
    forall i, j | 0 <= i < j < |b| ensures b[i] != b[j] {
      if b[i] == b[j] {
        SplitTwo(b, i, j);
        MultiplicityOfDistinct(a, b[i]);
      }
    }
  }

  lemma ConcatNoDuplicates<T>(a: seq<T>, b: seq<T>)
    requires NoDuplicates(a) && NoDuplicates(b)
    requires forall x :: x in a ==> x !in b
    ensures NoDuplicates(a + b)
  {
    var c := a + b;
    forall i, j | 0 <= i < j < |c| ensures c[i] != c[j] {
      if i < |a| <= j { assert c[i] in a && c[j] in b; }
    }
  }

  lemma NextUnseen<T>(s: seq<T>, i: nat)
    requires NoDuplicates(s) && i < |s|
    ensures s[i] !in s[..i] && s[..i + 1] == s[..i] + [s[i]]
  {
  }

  lemma SplitTwo<T>(s: seq<T>, i: nat, j: nat)
    requires i < j < |s|
    requires s[i] == s[j]
    ensures multiset(s)[s[i]] >= 2
  {
    assert s == s[..i] + [s[i]] + s[i + 1..j] + [s[j]] + s[j + 1..];
  }

  lemma {:induction false} MultiplicityOfDistinct<T>(s: seq<T>, x: T)
    requires NoDuplicates(s)
    ensures multiset(s)[x] <= 1
  {
    if s != [] {
      assert s == [s[0]] + s[1..];
      MultiplicityOfDistinct(s[1..], x);
      if x == s[0] {
        assert x !in s[1..];
        assert multiset(s[1..])[x] == 0;
      }
    }
  }

  lemma {:induction false} DistinctSize<T>(s: seq<T>, elements: set<T>)
    requires NoDuplicates(s) && forall x :: x in s <==> x in elements
    ensures |s| == |elements|
  {
    if s != [] {
      assert s == [s[0]] + s[1..];
      DistinctSize(s[1..], elements - {s[0]});
    } else {
      assert elements == {};
    }
  }

  lemma HeadIsLeast<T>(s: seq<T>, x: T, leq: (T, T) -> bool)
    requires SortedBy(s, leq) && x in s
    ensures s != [] && (x == s[0] || leq(s[0], x))
  {
  }

  /** Two sorted sequences without ties that hold the same elements are equal,
      so sorting erases the order a map was drained in. */
  lemma {:induction false} SortedIsCanonical<T>(a: seq<T>, b: seq<T>, leq: (T, T) -> bool)
    requires SortedBy(a, leq) && SortedBy(b, leq)
    requires NoDuplicates(a) && NoDuplicates(b)
    requires forall x, y :: x in a && y in a && leq(x, y) && leq(y, x) ==> x == y
    requires forall x :: x in a <==> x in b
    ensures a == b
  {
    assert b != [] ==> b[0] in b;
    if a != [] {
      assert a[0] in b;
      HeadIsLeast(a, b[0], leq);
      HeadIsLeast(b, a[0], leq);
      assert a[0] == b[0];
      forall x ensures x in a[1..] <==> x in b[1..] {
        assert a == [a[0]] + a[1..];
        assert b == [b[0]] + b[1..];
        assert x in a[1..] <==> x in a && x != a[0];
        assert x in b[1..] <==> x in b && x != b[0];
      }
      SortedIsCanonical(a[1..], b[1..], leq);
      assert a == [a[0]] + a[1..];
      assert b == [b[0]] + b[1..];
    }
  }

  /** Sorted permutations of one another agree wherever ties are equal elements. */
  lemma {:induction false} SortedPermutationIsUnique(a: seq<nat>, b: seq<nat>)
    requires SortedBy(a, NatLeq) && SortedBy(b, NatLeq)
    requires multiset(a) == multiset(b)
    ensures a == b
  {
    SameElements(a, b);
    if a != [] {
      assert a[0] in b;
      assert b[0] in a;
      assert a == [a[0]] + a[1..];
      assert b == [b[0]] + b[1..];
      assert a[0] == b[0];
      assert multiset(a[1..]) == multiset(a) - multiset{a[0]};
      assert multiset(b[1..]) == multiset(b) - multiset{b[0]};
      SortedPermutationIsUnique(a[1..], b[1..]);
    }
  }

  /** Drains a set in whatever order the runtime picks, as ranging over a Go map does. */
  method Drain<T(==)>(s: set<T>) returns (keys: seq<T>)
    ensures NoDuplicates(keys)
    ensures forall x :: x in keys <==> x in s
    ensures |keys| == |s|
  {
    var todo := s;
    keys := [];
    while todo != {}
      invariant todo <= s
      invariant NoDuplicates(keys)
      invariant forall x :: x in keys <==> x in s - todo
      invariant |keys| + |todo| == |s|
      decreases |todo|
    {
      var x :| x in todo;
      assert x !in keys;
      keys := keys + [x];
      todo := todo - {x};
    }
  }

  // -------------------------------------------------------------- set sizes

  lemma SubsetSize<T>(a: set<T>, b: set<T>)
    requires a <= b
    ensures |a| <= |b|
  {
    assert |b - a| == |b| - |a|;
  }

  lemma SameSizeSubset<T>(a: set<T>, b: set<T>)
    requires a <= b && |a| >= |b|
    ensures a == b
  {
    assert |b - a| == |b| - |a|;
  }

  // --------------------------------------------------------------- counting

  /** How many elements of `s` satisfy `p`. */
  function Count<T>(s: seq<T>, p: T -> bool): nat {
    if s == [] then 0 else (if p(s[0]) then 1 else 0) + Count(s[1..], p)
  }

  lemma {:induction false} CountConcat<T>(a: seq<T>, b: seq<T>, p: T -> bool)
    ensures Count(a + b, p) == Count(a, p) + Count(b, p)
  {
    if a == [] {
      assert a + b == b;
    } else {
      assert (a + b)[1..] == a[1..] + b;
      CountConcat(a[1..], b, p);
    }
  }

  lemma {:induction false} CountBound<T>(s: seq<T>, p: T -> bool)
    ensures Count(s, p) <= |s|
  {
    if s != [] { CountBound(s[1..], p); }
  }

  lemma {:induction false} CountAll<T>(s: seq<T>, p: T -> bool)
    requires forall i :: 0 <= i < |s| ==> p(s[i])
    ensures Count(s, p) == |s|
  {
    if s != [] { CountAll(s[1..], p); }
  }

  lemma {:induction false} CountNone<T>(s: seq<T>, p: T -> bool)
    requires forall i :: 0 <= i < |s| ==> !p(s[i])
    ensures Count(s, p) == 0
  {
    if s != [] { CountNone(s[1..], p); }
  }

  lemma {:induction false} CountPositive<T>(s: seq<T>, p: T -> bool)
    requires Count(s, p) > 0
    ensures exists i :: 0 <= i < |s| && p(s[i])
  {
    if forall i :: 0 <= i < |s| ==> !p(s[i]) { CountNone(s, p); }
  }

  /** A permutation with its head taken out of both sides. */
  lemma TakeHead<T>(a: seq<T>, b: seq<T>) returns (i: nat)
    requires multiset(a) == multiset(b) && a != []
    ensures i < |b| && b[i] == a[0]
    ensures multiset(a[1..]) == multiset(b[..i] + b[i + 1..])
    ensures b == b[..i] + ([b[i]] + b[i + 1..])
  {
    SameElements(a, b);
    assert a[0] in b;
    i :| 0 <= i < |b| && b[i] == a[0];
    assert a == [a[0]] + a[1..];
    assert b == b[..i] + ([b[i]] + b[i + 1..]);
    assert multiset(b[..i] + b[i + 1..]) == multiset(b) - multiset{b[i]};
    assert multiset(a[1..]) == multiset(a) - multiset{a[0]};
  }

  /** Counting does not see the order of the elements. */
  lemma {:induction false} CountPermutation<T>(a: seq<T>, b: seq<T>, p: T -> bool)
    requires multiset(a) == multiset(b)
    ensures Count(a, p) == Count(b, p)
    decreases |a|
  {
    if a == [] {
      assert |multiset(b)| == |b| == 0;
    } else {
      var i := TakeHead(a, b);
      CountPermutation(a[1..], b[..i] + b[i + 1..], p);
      CountConcat(b[..i], b[i + 1..], p);
      CountConcat(b[..i], [b[i]] + b[i + 1..], p);
      assert ([b[i]] + b[i + 1..])[1..] == b[i + 1..];
    }
  }

  lemma CountNext<T>(s: seq<T>, i: nat, p: T -> bool)
    requires i < |s|
    ensures Count(s[..i + 1], p) == Count(s[..i], p) + if p(s[i]) then 1 else 0
  {
    assert s[..i + 1] == s[..i] + [s[i]];
    CountConcat(s[..i], [s[i]], p);
    assert [s[i]][1..] == [];
  }

  /** If only faulty oracles satisfy `p`, no more are counted than there are faulty ones. */
  lemma {:induction false} OnlyFaultyCounted<T>(s: seq<T>, p: T -> bool, faulty: set<nat>)
    requires forall i :: 0 <= i < |s| && p(s[i]) ==> i in faulty
    ensures Count(s, p) <= |faulty|
    decreases |s|
  {
    if s != [] {
      var n := |s| - 1;
      assert s[..n + 1] == s;
      CountNext(s, n, p);
      if p(s[n]) {
        OnlyFaultyCounted(s[..n], p, faulty - {n});
        assert |faulty - {n}| == |faulty| - 1;
      } else {
        OnlyFaultyCounted(s[..n], p, faulty);
      }
    }
  }

  /** More than `f` votes with at most `f` faulty oracles include an honest one. */
  lemma HonestVoter<T>(s: seq<T>, p: T -> bool, faulty: set<nat>, f: nat)
    requires Count(s, p) > f && |faulty| <= f
    ensures exists i :: 0 <= i < |s| && i !in faulty && p(s[i])
  {
    if forall i :: 0 <= i < |s| && p(s[i]) ==> i in faulty { OnlyFaultyCounted(s, p, faulty); }
  }

  /** If every oracle that is not faulty satisfies `p`, the rest is at most the faulty ones. */
  lemma {:induction false} HonestCounted<T>(s: seq<T>, p: T -> bool, faulty: set<nat>)
    requires forall i :: 0 <= i < |s| && i !in faulty ==> p(s[i])
    ensures Count(s, p) + |faulty| >= |s|
    decreases |s|
  {
    if s != [] {
      var n := |s| - 1;
      assert s[..n + 1] == s;
      CountNext(s, n, p);
      if n in faulty {
        HonestCounted(s[..n], p, faulty - {n});
        assert |faulty - {n}| == |faulty| - 1;
      } else {
        HonestCounted(s[..n], p, faulty);
      }
    }
  }
}
