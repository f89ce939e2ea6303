/** Aggregating the stream values of a round (llo/protocol/aggregators.go). */
module Aggregators {
  import opened Collections
  import opened Medians

  const MAX_DECIMAL_EXPONENT: int := 1000

  // ------------------------------------------------------------------ decimals

  /** coefficient * 10^exponent */
  datatype Decimal = Decimal(coefficient: int, exponent: int)

  function Pow10(e: int): (p: real)
    ensures p > 0.0
    decreases if e >= 0 then e else -e
  {
    if e == 0 then 1.0 else if e > 0 then 10.0 * Pow10(e - 1) else Pow10(e + 1) / 10.0
  }

  lemma Pow10Next(e: int)
    ensures Pow10(e + 1) == 10.0 * Pow10(e)
  {
  }

  function Value(d: Decimal): real { d.coefficient as real * Pow10(d.exponent) }

  lemma ValueStep(c: int, e: int)
    ensures Value(Decimal(10 * c, e)) == Value(Decimal(c, e + 1))
  {
    Pow10Next(e);
    var x, p := c as real, Pow10(e);
    assert (10 * c) as real == 10.0 * x;
    assert (10.0 * x) * p == x * (10.0 * p);
  }

  /** Trailing zeros are stripped as far as the exponent bound allows. */
  predicate IsCanonical(d: Decimal) {
    if d.coefficient == 0 then d.exponent == 0
    else d.exponent >= MAX_DECIMAL_EXPONENT || d.coefficient % 10 != 0
  }

  function Strip(c: int, e: int): Decimal
    decreases MAX_DECIMAL_EXPONENT - e
  {
    if e >= MAX_DECIMAL_EXPONENT || c % 10 != 0 then Decimal(c, e) else Strip(c / 10, e + 1)
  }

  function Canonical(d: Decimal): Decimal
  {
    if d.coefficient == 0 then Decimal(0, 0) else Strip(d.coefficient, d.exponent)
  }

  /** Strips trailing zeros without changing the value. */
  method CanonicalDecimal(d: Decimal) returns (r: Decimal)
    ensures r == Canonical(d)
    ensures Value(r) == Value(d) && IsCanonical(r)
    ensures d.exponent <= MAX_DECIMAL_EXPONENT ==> r.exponent <= MAX_DECIMAL_EXPONENT
  {
    if d.coefficient == 0 {
      ZeroValue(d.exponent);
      ZeroValue(0);
      return Decimal(0, 0);
    }
    var coefficient, exponent := d.coefficient, d.exponent;
    while exponent < MAX_DECIMAL_EXPONENT
      invariant coefficient != 0 && Value(Decimal(coefficient, exponent)) == Value(d)
      invariant Strip(coefficient, exponent) == Strip(d.coefficient, d.exponent)
      invariant d.exponent <= MAX_DECIMAL_EXPONENT ==> exponent <= MAX_DECIMAL_EXPONENT
      decreases MAX_DECIMAL_EXPONENT - exponent
    {
      hide Value;
      if coefficient % 10 != 0 {
        break;
      }
      ValueStep(coefficient / 10, exponent);
      assert coefficient == 10 * (coefficient / 10);
      coefficient, exponent := coefficient / 10, exponent + 1;
    }
    r := Decimal(coefficient, exponent);
  }

  lemma ZeroValue(e: int)
    ensures Value(Decimal(0, e)) == 0.0
  {
  }

  function Shifted(c: int, n: nat): int { if n == 0 then c else 10 * Shifted(c, n - 1) }

  lemma {:induction false} ShiftedValue(c: int, e: int, n: nat)
    ensures Value(Decimal(c, e + n)) == Value(Decimal(Shifted(c, n), e))
    decreases n
  {
    hide Value;
    if n > 0 {
      ShiftedValue(c, e + 1, n - 1);
      ValueStep(Shifted(c, n - 1), e);
    }
  }

  lemma SameExponent(a: int, b: int, e: int)
    requires Value(Decimal(a, e)) == Value(Decimal(b, e))
    ensures a == b
  {
    Divides(a as real, Pow10(e));
    Divides(b as real, Pow10(e));
  }

  lemma Divides(x: real, p: real)
    requires p > 0.0
    ensures x * p / p == x
  {
  }

  /** Within the exponent bound two decimals are numerically equal exactly when their
      canonical forms are the same. */
  lemma CanonicalIsUnique(a: Decimal, b: Decimal)
    requires IsCanonical(a) && IsCanonical(b)
    requires a.exponent <= MAX_DECIMAL_EXPONENT && b.exponent <= MAX_DECIMAL_EXPONENT
    ensures Value(a) == Value(b) <==> a == b
  {
    if Value(a) == Value(b) {
      if a.exponent <= b.exponent { CanonicalOrdered(a, b); } else { CanonicalOrdered(b, a); }
    }
  }

  lemma CanonicalOrdered(a: Decimal, b: Decimal)
    requires IsCanonical(a) && IsCanonical(b) && Value(a) == Value(b)
    requires a.exponent <= b.exponent <= MAX_DECIMAL_EXPONENT
    ensures a == b
  {
    hide Value;
    var n := b.exponent - a.exponent;
    ShiftedValue(b.coefficient, a.exponent, n);
    SameExponent(a.coefficient, Shifted(b.coefficient, n), a.exponent);
    ShiftedZero(b.coefficient, n);
  }

  lemma {:induction false} ShiftedZero(c: int, n: nat)
    ensures Shifted(c, n) == 0 <==> c == 0
    ensures n > 0 ==> Shifted(c, n) % 10 == 0
  {
    if n > 0 { ShiftedZero(c, n - 1); }
  }

  // -------------------------------------------------------------- stream values

  datatype StreamValue =
    | Number(decimal: Decimal)
    | Quote(bid: Decimal, benchmark: Decimal, ask: Decimal)
    | Timestamped(at: nat, inner: Option<StreamValue>)

  function Kind(v: StreamValue): nat
  {
    match v case Number(_) => 0 case Quote(_, _, _) => 1 case Timestamped(_, _) => 2
  }

  /** A contribution may be missing. */
  type Contributions = seq<Option<StreamValue>>

  function IfKind(k: nat): Option<StreamValue> -> Option<StreamValue> {
    (v: Option<StreamValue>) => if v.Some? && Kind(v.value) == k then v else None
  }

  /** The most common type; among equally common ones, the lowest. */
  ghost predicate IsMostCommon(values: Contributions, k: nat) {
    && (forall j: nat :: |Selected(values, IfKind(j))| <= |Selected(values, IfKind(k))|)
    && (forall j: nat :: j < k ==> |Selected(values, IfKind(j))| < |Selected(values, IfKind(k))|)
  }

  function Bucket(buckets: map<nat, seq<StreamValue>>, k: nat): seq<StreamValue>
  {
    if k in buckets then buckets[k] else []
  }

  /** Each bucket holds the values of its type among the first `i`. */
  ghost predicate Bucketed(values: Contributions, i: nat, buckets: map<nat, seq<StreamValue>>) {
    i <= |values| && forall k: nat :: Bucket(buckets, k) == Selected(values[..i], IfKind(k))
  }

  ghost predicate Leads(buckets: map<nat, seq<StreamValue>>, kind: nat, largest: seq<StreamValue>) {
    && largest == Bucket(buckets, kind)
    && (forall k: nat :: |Bucket(buckets, k)| <= |largest|)
    && (forall k: nat :: k < kind ==> |Bucket(buckets, k)| < |largest|)
  }

  lemma BucketNext(values: Contributions, i: nat, buckets: map<nat, seq<StreamValue>>)
    requires i < |values| && Bucketed(values, i, buckets)
    ensures values[i].None? ==> Bucketed(values, i + 1, buckets)
    ensures values[i].Some? ==>
              var k := Kind(values[i].value);
              Bucketed(values, i + 1, buckets[k := Bucket(buckets, k) + [values[i].value]])
  {
    hide Selected;
    var more := if values[i].None? then buckets
                else buckets[Kind(values[i].value) := Bucket(buckets, Kind(values[i].value)) + [values[i].value]];
    forall j: nat ensures Bucket(more, j) == Selected(values[..i + 1], IfKind(j)) {
      SelectedNext(values, i, IfKind(j));
      assert Bucket(buckets, j) == Selected(values[..i], IfKind(j));
      assert Bucket(buckets, j) + [] == Bucket(buckets, j);
    }
  }

  /** Buckets values by type and finds the most common type, ties to the lowest. */
  method MostCommonType(values: Contributions) returns (kind: nat, largest: seq<StreamValue>)
    ensures largest == Selected(values, IfKind(kind)) && IsMostCommon(values, kind)
  {
    hide Bucketed, Selected, Leads;
    var buckets: map<nat, seq<StreamValue>> := map[];
    kind, largest := 0, [];
    NoneBucketed(values);
    NoneLeads();
    for i := 0 to |values|
      invariant Bucketed(values, i, buckets) && Leads(buckets, kind, largest)
    {
      BucketNext(values, i, buckets);
      if values[i].None? {
        continue;
      }
      var k := Kind(values[i].value);
      var bucket := Bucket(buckets, k) + [values[i].value];
      LeadsNext(buckets, kind, largest, k, bucket);
      buckets := buckets[k := bucket];
      if |bucket| > |largest| || (|bucket| == |largest| && k < kind) {
        kind, largest := k, bucket;
      }
    }
    AllBucketed(values, buckets, kind, largest);
  }

  lemma NoneLeads()
    ensures Leads(map[], 0, [])
  {
  }

  lemma LeadsNext(
    buckets: map<nat, seq<StreamValue>>, kind: nat, largest: seq<StreamValue>, k: nat, bucket: seq<StreamValue>)
    requires Leads(buckets, kind, largest) && |bucket| == |Bucket(buckets, k)| + 1
    ensures if |bucket| > |largest| || (|bucket| == |largest| && k < kind) then Leads(buckets[k := bucket], k, bucket)
            else Leads(buckets[k := bucket], kind, largest)
  {
    var more := buckets[k := bucket];
    assert k == kind ==> |bucket| > |largest|;
    forall j: nat ensures Bucket(more, j) == if j == k then bucket else Bucket(buckets, j) {
    }
    forall j: nat
      ensures |Bucket(more, j)| <= Max(|largest|, |bucket|) && (j < kind && j != k ==> |Bucket(more, j)| < |largest|)
    {
      assert |Bucket(buckets, j)| <= |largest|;
    }
  }

  lemma NoneBucketed(values: Contributions)
    ensures Bucketed(values, 0, map[])
  {
  }

  lemma AllBucketed(values: Contributions, buckets: map<nat, seq<StreamValue>>, kind: nat, largest: seq<StreamValue>)
    requires Bucketed(values, |values|, buckets) && Leads(buckets, kind, largest)
    ensures largest == Selected(values, IfKind(kind)) && IsMostCommon(values, kind)
  {
    hide Selected;
    assert values[..|values|] == values;
    assert forall k: nat :: |Selected(values, IfKind(k))| == |Bucket(buckets, k)|;
  }

  // -------------------------------------------------------------------- median

  datatype AggregationError = TooFewContributions | UnsupportedType | NilValue

  predicate DecimalLeq(a: Decimal, b: Decimal) { Value(a) <= Value(b) }

  lemma Orders()
    ensures OrdersBy(DecimalLeq, Value) && TotalPreorder(DecimalLeq)
    ensures OrdersBy(NatLeq, NatValue) && TotalPreorder(NatLeq)
  {
    hide Value;
    NatOrders();
  }

  /** Decimals, and the benchmarks of quotes. */
  function AsNumber(v: Option<StreamValue>): Option<Decimal> {
    if v.None? then None
    else match v.value case Number(d) => Some(d) case Quote(_, m, _) => Some(m) case Timestamped(_, _) => None
  }

  predicate HoldsNumber(v: StreamValue) { v.Timestamped? && v.inner.Some? && v.inner.value.Number? }

  function NumberOf(v: StreamValue): Option<Decimal> { if HoldsNumber(v) then Some(v.inner.value.decimal) else None }

  function TimeOf(v: StreamValue): Option<nat> { if HoldsNumber(v) then Some(v.at) else None }

  function InnerNumber(v: Option<StreamValue>): Option<Decimal> { if v.Some? then NumberOf(v.value) else None }

  function InnerTime(v: Option<StreamValue>): Option<nat> { if v.Some? then TimeOf(v.value) else None }

  function MiddleNumber(s: seq<Decimal>): Decimal
    requires s != []
  {
    Orders();
    Sort(s, DecimalLeq)[|s| / 2]
  }

  /** The rank median of enough numbers. */
  method MedianOfNumbers(numbers: seq<Decimal>, minContributions: nat) returns (r: Result<Decimal, AggregationError>)
    requires minContributions > 0
    ensures r == Err(TooFewContributions) || r.Ok?
    ensures r.Ok? <==> |numbers| >= minContributions
    ensures r.Ok? ==> Value(r.value) == Value(MiddleNumber(numbers))
  {
    if |numbers| < minContributions {
      return Err(TooFewContributions);
    }
    r := Ok(MiddleNumber(numbers));
  }

  /** The time a timestamped value counts with. OCR3.0 counts one without a decimal
      inside as time zero, OCR3.1 not at all. */
  function TimeCounted(countSkipped: bool, v: StreamValue): Option<nat> {
    if HoldsNumber(v) then Some(v.at) else if countSkipped && v.Timestamped? then Some(0) else None
  }

  function CountedTimeOf(countSkipped: bool): StreamValue -> Option<nat> {
    (v: StreamValue) => TimeCounted(countSkipped, v)
  }

  function CountedTime(countSkipped: bool): Option<StreamValue> -> Option<nat> {
    (v: Option<StreamValue>) => if v.Some? then TimeCounted(countSkipped, v.value) else None
  }

  /** The value is the median of all numbers, or of the timestamped ones with the median
      of their counted times, and enough numbers stand behind it. */
  ghost predicate IsMedian(values: Contributions, minContributions: nat, countSkipped: bool, v: StreamValue) {
    match v
    case Number(d) =>
      var numbers := Selected(values, AsNumber);
      |numbers| >= minContributions && numbers != [] && Value(d) == Value(MiddleNumber(numbers))
    case Timestamped(at, inner) =>
      var numbers, times := Selected(values, InnerNumber), Selected(values, CountedTime(countSkipped));
      && |times| >= |numbers| >= minContributions && numbers != []
      && inner.Some? && inner.value.Number? && Value(inner.value.decimal) == Value(MiddleNumber(numbers))
      && at == MiddleTime(times)
    case Quote(_, _, _) => false
  }

  lemma {:induction false} SelectedThrough<U>(
    values: Contributions, view: StreamValue -> Option<U>, whole: Option<StreamValue> -> Option<U>)
    requires forall v :: whole(v) == if v.Some? then view(v.value) else None
    requires forall v :: Kind(v) != 2 ==> view(v) == None
    ensures Selected(Selected(values, IfKind(2)), view) == Selected(values, whole)
  {
    if values != [] {
      SelectedThrough(values[1..], view, whole);
      var rest := Selected(values[1..], IfKind(2));
      if IfKind(2)(values[0]).Some? {
        assert Selected(values, IfKind(2))[1..] == rest;
      } else {
        assert Selected(values, IfKind(2)) == rest;
        assert whole(values[0]) == None;
      }
    }
  }

  // The contributions a median is taken of, and those on either side of it, by their own
  // fields. Quotes count with their benchmark.

  function Numeric(): Option<StreamValue> -> bool {
    (o: Option<StreamValue>) => o.Some? && (o.value.Number? || o.value.Quote?)
  }

  function NumericUpTo(m: real): Option<StreamValue> -> bool {
    (o: Option<StreamValue>) =>
      && o.Some? && (o.value.Number? ==> Value(o.value.decimal) <= m)
      && (o.value.Quote? ==> Value(o.value.benchmark) <= m) && !o.value.Timestamped?
  }

  function NumericFrom(m: real): Option<StreamValue> -> bool {
    (o: Option<StreamValue>) =>
      && o.Some? && (o.value.Number? ==> m <= Value(o.value.decimal))
      && (o.value.Quote? ==> m <= Value(o.value.benchmark)) && !o.value.Timestamped?
  }

  predicate HoldsDecimal(o: Option<StreamValue>) {
    o.Some? && o.value.Timestamped? && o.value.inner.Some? && o.value.inner.value.Number?
  }

  function Holding(): Option<StreamValue> -> bool { (o: Option<StreamValue>) => HoldsDecimal(o) }

  function HoldingUpTo(m: real): Option<StreamValue> -> bool {
    (o: Option<StreamValue>) => HoldsDecimal(o) && Value(o.value.inner.value.decimal) <= m
  }

  function HoldingFrom(m: real): Option<StreamValue> -> bool {
    (o: Option<StreamValue>) => HoldsDecimal(o) && m <= Value(o.value.inner.value.decimal)
  }

  /** Timestamped values count with their time if they hold a decimal, and otherwise with
      zero or not at all. */
  function Timed(countSkipped: bool): Option<StreamValue> -> bool {
    (o: Option<StreamValue>) => o.Some? && o.value.Timestamped? && (HoldsDecimal(o) || countSkipped)
  }

  function TimedUpTo(countSkipped: bool, t: nat): Option<StreamValue> -> bool {
    (o: Option<StreamValue>) =>
      && o.Some? && o.value.Timestamped? && (HoldsDecimal(o) || countSkipped)
      && (if HoldsDecimal(o) then o.value.at else 0) <= t
  }

  function TimedFrom(countSkipped: bool, t: nat): Option<StreamValue> -> bool {
    (o: Option<StreamValue>) =>
      && o.Some? && o.value.Timestamped? && (HoldsDecimal(o) || countSkipped)
      && t <= if HoldsDecimal(o) then o.value.at else 0
  }

  /** The median, by counting contributions: more than half of the decimals and quotes are
      at most it and the rest, or more, at least it. A timestamped median is that of the
      decimals inside, with the middle one of the counted times. */
  predicate MedianCounts(values: Contributions, countSkipped: bool, v: StreamValue) {
    match v
    case Number(d) =>
      MiddleCounts(Count(values, Numeric()), Count(values, NumericUpTo(Value(d))), Count(values, NumericFrom(Value(d))))
    case Timestamped(at, inner) =>
      && inner.Some? && inner.value.Number?
      && (var m := Value(inner.value.decimal);
          MiddleCounts(Count(values, Holding()), Count(values, HoldingUpTo(m)), Count(values, HoldingFrom(m))))
      && MiddleCounts(Count(values, Timed(countSkipped)), Count(values, TimedUpTo(countSkipped, at)),
                      Count(values, TimedFrom(countSkipped, at)))
    case Quote(_, _, _) => false
  }

  lemma MedianByCounting(values: Contributions, minContributions: nat, countSkipped: bool, v: StreamValue)
    requires IsMedian(values, minContributions, countSkipped, v)
    ensures MedianCounts(values, countSkipped, v)
  {
    hide Value, Selected, Count, OrdersBy, TotalPreorder, MiddleCounts, SortedBy;
    Orders();
    match v
    case Number(d) =>
      var m := Value(d);
      MiddleByCounting(values, AsNumber, DecimalLeq, Value, Numeric(), NumericUpTo(m), NumericFrom(m));
    case Timestamped(at, inner) =>
      var m := Value(inner.value.decimal);
      MiddleByCounting(values, InnerNumber, DecimalLeq, Value, Holding(), HoldingUpTo(m), HoldingFrom(m));
      MiddleByCounting<Option<StreamValue>, nat>(
        values, CountedTime(countSkipped), NatLeq, NatValue, Timed(countSkipped), TimedUpTo(countSkipped, at),
        TimedFrom(countSkipped, at));
  }

  /** How many decimals a median of that type is taken of. */
  lemma MedianFloor(values: Contributions)
    ensures |Selected(values, InnerNumber)| == Count(values, Holding())
    ensures |Selected(values, AsNumber)| == Count(values, Numeric())
  {
    hide Selected, Count;
    SeenCount(values, InnerNumber, Holding());
    SeenCount(values, AsNumber, Numeric());
  }

  function Numbers(): Option<StreamValue> -> bool { (o: Option<StreamValue>) => o.Some? && o.value.Number? }

  function Quotes(): Option<StreamValue> -> bool { (o: Option<StreamValue>) => o.Some? && o.value.Quote? }

  function Timestampeds(): Option<StreamValue> -> bool { (o: Option<StreamValue>) => o.Some? && o.value.Timestamped? }

  /** More contributions are timestamped than are decimals, and than are quotes. */
  predicate MostlyTimestamped(values: Contributions) {
    && Count(values, Timestampeds()) > Count(values, Numbers())
    && Count(values, Timestampeds()) > Count(values, Quotes())
  }

  /** The most common type by counting contributions: decimals win ties, then quotes. */
  lemma MostCommonIff(values: Contributions, kind: nat)
    requires IsMostCommon(values, kind)
    ensures var n, q, t := Count(values, Numbers()), Count(values, Quotes()), Count(values, Timestampeds());
            && (kind == 0 <==> n >= q && n >= t)
            && (kind == 1 <==> q > n && q >= t)
            && (kind == 2 <==> t > n && t > q)
  {
    hide Selected, Count;
    SeenCount(values, IfKind(0), Numbers());
    SeenCount(values, IfKind(1), Quotes());
    SeenCount(values, IfKind(2), Timestampeds());
    NoOtherType(values, kind);
  }

  lemma {:induction false} NoOtherType(values: Contributions, kind: nat)
    ensures kind > 2 ==> Selected(values, IfKind(kind)) == []
  {
    if values != [] { NoOtherType(values[1..], kind); }
  }

  /** The median over contributions of mixed types, for OCR3.0 with skipped values counted
      and for OCR3.1 without. The recursion of the source on the timestamped values only
      ever sees decimals. */
  method MedianAggregator(values: Contributions, minContributions: nat, countSkipped: bool)
    returns (r: Result<StreamValue, AggregationError>)
    requires minContributions > 0
    ensures r.Ok? <==>
            Count(values, if MostlyTimestamped(values) then Holding() else Numeric()) >= minContributions
    ensures r.Ok? ==> (r.value.Timestamped? <==> MostlyTimestamped(values))
    ensures r.Ok? ==> MedianCounts(values, countSkipped, r.value)
    ensures r.Ok? ==> IsMedian(values, minContributions, countSkipped, r.value)
    ensures r.Err? ==> r.error == TooFewContributions
  {
    hide Selected, MiddleNumber, MiddleTime, IsMostCommon, MedianCounts, Count;
    var kind, typed := MostCommonType(values);
    MostCommonIff(values, kind);
    MedianFloor(values);
    if kind == 2 {
      SelectedThrough(values, NumberOf, InnerNumber);
      SelectedThrough(values, CountedTimeOf(countSkipped), CountedTime(countSkipped));
      NoShorter(values, InnerNumber, CountedTime(countSkipped));
      var numbers := Collect(typed, NumberOf);
      var times := Collect(typed, CountedTimeOf(countSkipped));
      var median := MedianOfNumbers(numbers, minContributions);
      if median.Err? {
        return Err(median.error);
      }
      r := Ok(Timestamped(MiddleTime(times), Some(Number(median.value))));
      MedianByCounting(values, minContributions, countSkipped, r.value);
      return;
    }
    var numbers := Collect(values, AsNumber);
    var median := MedianOfNumbers(numbers, minContributions);
    if median.Err? {
      return Err(median.error);
    }
    r := Ok(Number(median.value));
    MedianByCounting(values, minContributions, countSkipped, r.value);
  }

  lemma {:induction false} NoShorter<T, U, V>(values: seq<T>, f: T -> Option<U>, g: T -> Option<V>)
    requires forall v :: v in values && f(v).Some? ==> g(v).Some?
    ensures |Selected(values, f)| <= |Selected(values, g)|
  {
    if values != [] { NoShorter(values[1..], f, g); }
  }

  /** One honest contribution seen by `view` lies at or below `m`, one at or above. */
  ghost predicate AroundHonest<U(!new)>(
    values: Contributions, faulty: set<nat>, view: Option<StreamValue> -> Option<U>, f: U -> real, m: real)
  {
    && (exists i :: 0 <= i < |values| && i !in faulty && Through(view, AtMost(f, m))(values[i]))
    && (exists i :: 0 <= i < |values| && i !in faulty && Through(view, AtLeast(f, m))(values[i]))
  }

  /** No honest contribution is a timestamped value without a decimal inside. */
  predicate HonestHoldNumbers(values: Contributions, faulty: set<nat>) {
    forall i :: 0 <= i < |values| && i !in faulty && values[i].Some? && values[i].value.Timestamped? ==>
      HoldsNumber(values[i].value)
  }

  /** With a floor of 2b+1 and at most b faulty contributions, the median lies between two
      honest values whatever mix of types was sent; where skipped values count, as long as
      the honest ones are not among them. */
  lemma MedianBetweenHonest(values: Contributions, b: nat, countSkipped: bool, v: StreamValue, faulty: set<nat>)
    requires IsMedian(values, 2 * b + 1, countSkipped, v) && |faulty| <= b
    requires countSkipped ==> HonestHoldNumbers(values, faulty)
    ensures v.Number? ==> AroundHonest(values, faulty, AsNumber, Value, Value(v.decimal))
    ensures v.Timestamped? ==>
              && v.inner.Some? && v.inner.value.Number?
              && AroundHonest(values, faulty, InnerNumber, Value, Value(v.inner.value.decimal))
              && AroundHonest<nat>(values, faulty, InnerTime, NatValue, v.at as real)
  {
    hide Value, Selected, Through, AtMost, AtLeast, CountedTime;
    Orders();
    match v
    case Number(_) =>
      RankBetweenHonest(values, AsNumber, DecimalLeq, Value, |Selected(values, AsNumber)| / 2, faulty);
    case Timestamped(at, _) =>
      RankBetweenHonest(values, InnerNumber, DecimalLeq, Value, |Selected(values, InnerNumber)| / 2, faulty);
      var times := Selected(values, CountedTime(countSkipped));
      RankBetweenHonest<Option<StreamValue>, nat>(values, CountedTime(countSkipped), NatLeq, NatValue, |times| / 2,
          faulty);
      HonestTimes(values, faulty, countSkipped, AtMost<nat>(NatValue, at as real));
      HonestTimes(values, faulty, countSkipped, AtLeast<nat>(NatValue, at as real));
  }

  lemma HonestTimes(values: Contributions, faulty: set<nat>, countSkipped: bool, p: nat -> bool)
    requires countSkipped ==> HonestHoldNumbers(values, faulty)
    requires exists i :: 0 <= i < |values| && i !in faulty && Through(CountedTime(countSkipped), p)(values[i])
    ensures exists i :: 0 <= i < |values| && i !in faulty && Through(InnerTime, p)(values[i])
  {
    var i :| 0 <= i < |values| && i !in faulty && Through(CountedTime(countSkipped), p)(values[i]);
    assert InnerTime(values[i]) == CountedTime(countSkipped)(values[i]);
    assert Through(InnerTime, p)(values[i]);
  }

  predicate Skipped(v: Option<StreamValue>) { v.Some? && v.value.Timestamped? && !HoldsNumber(v.value) }

  /** Counting skipped values, the timestamp is not before every value's own exactly when
      at most half of the counted times are of skipped values; otherwise it is zero. */
  lemma SkippedTimestampIff(values: Contributions, minContributions: nat, v: StreamValue)
    requires IsMedian(values, minContributions, true, v) && v.Timestamped?
    requires forall i :: 0 <= i < |values| && InnerTime(values[i]).Some? ==> InnerTime(values[i]).value > 0
    ensures var counted := |Selected(values, CountedTime(true))|;
            && (v.at == 0 <==> Count(values, Skipped) > counted / 2)
            && ((exists i :: 0 <= i < |values| && InnerTime(values[i]).Some? && InnerTime(values[i]).value <= v.at)
                <==> Count(values, Skipped) <= counted / 2)
  {
    hide Selected, Count, SortedBy, OrdersBy, TotalPreorder;
    NatOrders();
    var times := Selected(values, CountedTime(true));
    RankAtMost<nat>(times, NatLeq, NatValue, |times| / 2, 0.0);
    CountSelected<Option<StreamValue>, nat>(values, CountedTime(true), AtMost<nat>(NatValue, 0.0));
    ZeroTimes(values);
    if v.at > 0 {
      SameElements(times, Sort(times, NatLeq));
      assert v.at in times;
      var i := SelectedFrom(values, CountedTime(true), v.at);
      assert InnerTime(values[i]) == Some(v.at);
    }
  }

  lemma ZeroTimes(values: Contributions)
    requires forall i :: 0 <= i < |values| && InnerTime(values[i]).Some? ==> InnerTime(values[i]).value > 0
    ensures Count(values, Through(CountedTime(true), AtMost<nat>(NatValue, 0.0))) == Count(values, Skipped)
  {
    hide Count;
    forall v | v in values ensures Through(CountedTime(true), AtMost<nat>(NatValue, 0.0))(v) <==> Skipped(v) {
      var i :| 0 <= i < |values| && values[i] == v;
      assert CountedTime(true)(v).Some? <==> v.Some? && v.value.Timestamped?;
      if CountedTime(true)(v).Some? {
        assert NatValue(CountedTime(true)(v).value) <= 0.0 <==> CountedTime(true)(v).value == 0;
      }
    }
    CountWeaker(values, Through(CountedTime(true), AtMost<nat>(NatValue, 0.0)), Skipped);
    CountWeaker(values, Skipped, Through(CountedTime(true), AtMost<nat>(NatValue, 0.0)));
  }

  lemma {:induction false} SelectedFrom<T, U>(values: seq<T>, view: T -> Option<U>, u: U) returns (i: nat)
    requires u in Selected(values, view)
    ensures i < |values| && view(values[i]) == Some(u)
  {
    if view(values[0]) == Some(u) {
      i := 0;
    } else {
      var j := SelectedFrom(values[1..], view, u);
      i := j + 1;
    }
  }

  // -------------------------------------------------------------------- quotes

  datatype QuoteValue = QuoteValue(bid: Decimal, benchmark: Decimal, ask: Decimal)

  predicate InOrder(q: QuoteValue) { Value(q.bid) <= Value(q.benchmark) <= Value(q.ask) }

  function ValidQuote(v: Option<StreamValue>): Option<QuoteValue> {
    if v.Some? && v.value.Quote? then
      var q := QuoteValue(v.value.bid, v.value.benchmark, v.value.ask);
      if InOrder(q) then Some(q) else None
    else None
  }

  function BidOf(q: QuoteValue): real { Value(q.bid) }

  function BenchmarkOf(q: QuoteValue): real { Value(q.benchmark) }

  function AskOf(q: QuoteValue): real { Value(q.ask) }

  predicate BidLeq(a: QuoteValue, b: QuoteValue) { BidOf(a) <= BidOf(b) }

  predicate BenchmarkLeq(a: QuoteValue, b: QuoteValue) { BenchmarkOf(a) <= BenchmarkOf(b) }

  predicate AskLeq(a: QuoteValue, b: QuoteValue) { AskOf(a) <= AskOf(b) }

  lemma QuoteOrders()
    ensures OrdersBy(BidLeq, BidOf) && TotalPreorder(BidLeq)
    ensures OrdersBy(BenchmarkLeq, BenchmarkOf) && TotalPreorder(BenchmarkLeq)
    ensures OrdersBy(AskLeq, AskOf) && TotalPreorder(AskLeq)
  {
    hide BidOf, BenchmarkOf, AskOf;
  }

  lemma {:induction false} SelectedQuotesInOrder(values: Contributions, q: QuoteValue)
    requires q in Selected(values, ValidQuote)
    ensures InOrder(q)
  {
    hide InOrder;
    if values != [] && q in Selected(values[1..], ValidQuote) { SelectedQuotesInOrder(values[1..], q); }
  }

  ghost predicate BetweenHonest(values: Contributions, faulty: set<nat>, part: QuoteValue -> real, m: real) {
    && (exists i :: 0 <= i < |values| && i !in faulty && Through(ValidQuote, AtMost(part, m))(values[i]))
    && (exists i :: 0 <= i < |values| && i !in faulty && Through(ValidQuote, AtLeast(part, m))(values[i]))
  }

  /** Each part of the quote is the rank median of that part over the valid quotes. */
  ghost predicate IsMedianQuote(quotes: seq<QuoteValue>, q: QuoteValue)
    requires quotes != []
  {
    QuoteOrders();
    && BidOf(q) == BidOf(Sort(quotes, BidLeq)[|quotes| / 2])
    && BenchmarkOf(q) == BenchmarkOf(Sort(quotes, BenchmarkLeq)[|quotes| / 2])
    && AskOf(q) == AskOf(Sort(quotes, AskLeq)[|quotes| / 2])
  }

  function InOrderQuote(): Option<StreamValue> -> bool {
    (o: Option<StreamValue>) =>
      o.Some? && o.value.Quote? && Value(o.value.bid) <= Value(o.value.benchmark) <= Value(o.value.ask)
  }

  function BidUpTo(m: real): Option<StreamValue> -> bool {
    (o: Option<StreamValue>) => InOrderQuote()(o) && Value(o.value.bid) <= m
  }

  function BidFrom(m: real): Option<StreamValue> -> bool {
    (o: Option<StreamValue>) => InOrderQuote()(o) && m <= Value(o.value.bid)
  }

  function BenchmarkUpTo(m: real): Option<StreamValue> -> bool {
    (o: Option<StreamValue>) => InOrderQuote()(o) && Value(o.value.benchmark) <= m
  }

  function BenchmarkFrom(m: real): Option<StreamValue> -> bool {
    (o: Option<StreamValue>) => InOrderQuote()(o) && m <= Value(o.value.benchmark)
  }

  function AskUpTo(m: real): Option<StreamValue> -> bool {
    (o: Option<StreamValue>) => InOrderQuote()(o) && Value(o.value.ask) <= m
  }

  function AskFrom(m: real): Option<StreamValue> -> bool {
    (o: Option<StreamValue>) => InOrderQuote()(o) && m <= Value(o.value.ask)
  }

  /** Each part of the aggregate by counting the quotes whose bid, benchmark and ask ascend. */
  predicate QuoteCounts(values: Contributions, q: QuoteValue) {
    var n, bid, mid, ask := Count(values, InOrderQuote()), Value(q.bid), Value(q.benchmark), Value(q.ask);
    && MiddleCounts(n, Count(values, BidUpTo(bid)), Count(values, BidFrom(bid)))
    && MiddleCounts(n, Count(values, BenchmarkUpTo(mid)), Count(values, BenchmarkFrom(mid)))
    && MiddleCounts(n, Count(values, AskUpTo(ask)), Count(values, AskFrom(ask)))
  }

  lemma QuoteByCounting(values: Contributions, q: QuoteValue)
    requires Selected(values, ValidQuote) != [] && IsMedianQuote(Selected(values, ValidQuote), q)
    ensures QuoteCounts(values, q)
  {
    hide Value, Selected, Count, OrdersBy, TotalPreorder, MiddleCounts, SortedBy, BidLeq, BenchmarkLeq, AskLeq;
    QuoteOrders();
    var bid, mid, ask := Value(q.bid), Value(q.benchmark), Value(q.ask);
    MiddleByCounting(values, ValidQuote, BidLeq, BidOf, InOrderQuote(), BidUpTo(bid), BidFrom(bid));
    MiddleByCounting(
      values, ValidQuote, BenchmarkLeq, BenchmarkOf, InOrderQuote(), BenchmarkUpTo(mid), BenchmarkFrom(mid));
    MiddleByCounting(values, ValidQuote, AskLeq, AskOf, InOrderQuote(), AskUpTo(ask), AskFrom(ask));
  }

  /** Bid, benchmark and ask medians taken separately, re-sorting the same list. The
      result is a valid quote again, and each part lies between honest ones. */
  method QuoteAggregator(values: Contributions, minContributions: nat, ghost faulty: set<nat>)
    returns (r: Result<QuoteValue, AggregationError>)
    requires minContributions > 0
    ensures r.Ok? <==> Count(values, InOrderQuote()) >= minContributions
    ensures r.Ok? ==> QuoteCounts(values, r.value)
    ensures r.Ok? ==> Value(r.value.bid) <= Value(r.value.benchmark) <= Value(r.value.ask)
    ensures |Selected(values, ValidQuote)| == Count(values, InOrderQuote())
    ensures r.Ok? ==> IsMedianQuote(Selected(values, ValidQuote), r.value)
    ensures r.Ok? && minContributions >= 2 * |faulty| + 1 ==>
              && BetweenHonest(values, faulty, BidOf, Value(r.value.bid))
              && BetweenHonest(values, faulty, BenchmarkOf, Value(r.value.benchmark))
              && BetweenHonest(values, faulty, AskOf, Value(r.value.ask))
  {
    hide Selected, ValidQuote, Value, InOrder, BidLeq, BenchmarkLeq, AskLeq, OrdersBy, TotalPreorder, SortedBy,
      BetweenHonest, IsMedianQuote, Count, QuoteCounts;
    ValidQuoteCount(values);
    var observations := Collect(values, ValidQuote);
    if |observations| < minContributions {
      return Err(TooFewContributions);
    }
    QuoteOrders();
    var k := |observations| / 2;
    var byBenchmark := Sort(observations, BenchmarkLeq);
    var byBid := Sort(byBenchmark, BidLeq);
    var byAsk := Sort(byBid, AskLeq);
    r := Ok(QuoteValue(byBid[k].bid, byBenchmark[k].benchmark, byAsk[k].ask));
    ResortedMedians(observations, byBenchmark, byBid, byAsk, r.value);
    QuoteByCounting(values, r.value);
    MediansInOrder(values, observations, r.value);
    PartsInOrder(r.value);
    if minContributions >= 2 * |faulty| + 1 {
      MedianQuoteBetweenHonest(values, r.value, faulty);
    }
  }

  lemma ValidQuoteCount(values: Contributions)
    ensures |Selected(values, ValidQuote)| == Count(values, InOrderQuote())
  {
    hide Selected, Count, Value;
    SeenCount(values, ValidQuote, InOrderQuote());
  }

  lemma PartsInOrder(q: QuoteValue)
    ensures InOrder(q) <==> Value(q.bid) <= Value(q.benchmark) <= Value(q.ask)
  {
    hide Value;
  }

  /** Sorting a list again that another sort left behind changes no rank. */
  lemma ResortedMedians(
    quotes: seq<QuoteValue>, byBenchmark: seq<QuoteValue>, byBid: seq<QuoteValue>, byAsk: seq<QuoteValue>,
    q: QuoteValue)
    requires quotes != [] && TotalPreorder(BenchmarkLeq) && TotalPreorder(BidLeq) && TotalPreorder(AskLeq)
    requires byBenchmark == Sort(quotes, BenchmarkLeq) && byBid == Sort(byBenchmark, BidLeq)
    requires byAsk == Sort(byBid, AskLeq)
    requires var k := |quotes| / 2; q == QuoteValue(byBid[k].bid, byBenchmark[k].benchmark, byAsk[k].ask)
    ensures IsMedianQuote(quotes, q)
  {
    hide Value, BidLeq, BenchmarkLeq, AskLeq, OrdersBy, TotalPreorder, SortedBy;
    QuoteOrders();
    RankOfPermutation(byBenchmark, quotes, BidLeq, BidOf, |quotes| / 2);
    RankOfPermutation(byBid, quotes, AskLeq, AskOf, |quotes| / 2);
  }

  lemma MedianQuoteBetweenHonest(values: Contributions, q: QuoteValue, faulty: set<nat>)
    requires |Selected(values, ValidQuote)| > 2 * |faulty| && IsMedianQuote(Selected(values, ValidQuote), q)
    ensures BetweenHonest(values, faulty, BidOf, Value(q.bid))
    ensures BetweenHonest(values, faulty, BenchmarkOf, Value(q.benchmark))
    ensures BetweenHonest(values, faulty, AskOf, Value(q.ask))
  {
    hide Selected, ValidQuote, Value, BidLeq, BenchmarkLeq, AskLeq, OrdersBy, TotalPreorder, SortedBy, BetweenHonest;
    QuoteOrders();
    PartBetweenHonest(values, BidLeq, BidOf, faulty);
    PartBetweenHonest(values, BenchmarkLeq, BenchmarkOf, faulty);
    PartBetweenHonest(values, AskLeq, AskOf, faulty);
  }

  lemma RankOfPermutation(
    s: seq<QuoteValue>, t: seq<QuoteValue>, leq: (QuoteValue, QuoteValue) -> bool, f: QuoteValue -> real, k: nat)
    requires OrdersBy(leq, f) && TotalPreorder(leq) && multiset(s) == multiset(t) && k < |s| && k < |t|
    ensures f(Sort(s, leq)[k]) == f(Sort(t, leq)[k])
  {
    RankMonotone(s, t, leq, f, leq, f, k);
    RankMonotone(t, s, leq, f, leq, f, k);
  }

  lemma PartBetweenHonest(
    values: Contributions, leq: (QuoteValue, QuoteValue) -> bool, part: QuoteValue -> real, faulty: set<nat>)
    requires OrdersBy(leq, part) && TotalPreorder(leq) && |Selected(values, ValidQuote)| > 2 * |faulty|
    ensures BetweenHonest(values, faulty, part,
              part(Sort(Selected(values, ValidQuote), leq)[|Selected(values, ValidQuote)| / 2]))
  {
    hide Selected, Through, AtMost, AtLeast, ValidQuote, OrdersBy, TotalPreorder, SortedBy;
    RankBetweenHonest(values, ValidQuote, leq, part, |Selected(values, ValidQuote)| / 2, faulty);
  }

  /** Separately taken medians of ordered quotes are ordered again. */
  lemma MediansInOrder(values: Contributions, quotes: seq<QuoteValue>, q: QuoteValue)
    requires quotes == Selected(values, ValidQuote) && quotes != [] && IsMedianQuote(quotes, q)
    ensures InOrder(q)
  {
    hide Selected, ValidQuote, TotalPreorder, SortedBy, OrdersBy, BidLeq, BenchmarkLeq, AskLeq, Value;
    QuoteOrders();
    forall x | x in quotes ensures InOrder(x) {
      SelectedQuotesInOrder(values, x);
    }
    RankMonotone(quotes, quotes, BidLeq, BidOf, BenchmarkLeq, BenchmarkOf, |quotes| / 2);
    RankMonotone(quotes, quotes, BenchmarkLeq, BenchmarkOf, AskLeq, AskOf, |quotes| / 2);
  }

  // ---------------------------------------------------------------------- mode

  function CanonicalValue(v: StreamValue): StreamValue {
    match v
    case Number(d) => Number(Canonical(d))
    case Quote(bid, benchmark, ask) => Quote(Canonical(bid), Canonical(benchmark), Canonical(ask))
    case Timestamped(_, _) => v
  }

  /** The form a value votes in: decimals canonical, the outer timestamp cleared. */
  function VoteForm(v: StreamValue): StreamValue {
    if v.Timestamped? && v.inner.Some? then Timestamped(0, Some(CanonicalValue(v.inner.value))) else CanonicalValue(v)
  }

  predicate NilInside(v: StreamValue) { v.Timestamped? && v.inner.None? }

  /** Serialisation, and what decoding makes of it. */
  datatype Codec = Codec(encode: StreamValue -> nat, decode: nat -> StreamValue)

  ghost predicate Lossless(codec: Codec) { forall v :: codec.decode(codec.encode(v)) == v }

  function IsVote(codec: Codec, x: nat): StreamValue -> bool { (v: StreamValue) => codec.encode(VoteForm(v)) == x }

  function VoteTime(codec: Codec, x: nat): StreamValue -> Option<nat> {
    (v: StreamValue) => if v.Timestamped? && codec.encode(VoteForm(v)) == x then Some(v.at) else None
  }

  /** The most voted form of a list; among equally voted ones, the lowest key. */
  ghost predicate IsBest(codec: Codec, bucket: seq<StreamValue>, x: nat) {
    && Count(bucket, IsVote(codec, x)) > 0
    && (forall y: nat :: Count(bucket, IsVote(codec, y)) <= Count(bucket, IsVote(codec, x)))
    && (forall y: nat :: y < x ==> Count(bucket, IsVote(codec, y)) < Count(bucket, IsVote(codec, x)))
  }

  /** The decoded winner, with the median timestamp of those that agreed on it. */
  function Winning(codec: Codec, bucket: seq<StreamValue>, x: nat): StreamValue {
    var v, times := codec.decode(x), Selected(bucket, VoteTime(codec, x));
    if v.Timestamped? && times != [] then v.(at := MiddleTime(times)) else v
  }

  ghost predicate IsMode(codec: Codec, values: Contributions, minContributions: nat, v: StreamValue) {
    exists kind: nat, x: nat ::
      && IsMostCommon(values, kind)
      && (forall u :: u in Selected(values, IfKind(kind)) ==> !NilInside(u))
      && IsBest(codec, Selected(values, IfKind(kind)), x)
      && Count(Selected(values, IfKind(kind)), IsVote(codec, x)) >= minContributions
      && v == Winning(codec, Selected(values, IfKind(kind)), x)
  }

  /** Counts the serialised votes of a bucket. */
  method CountVotes(codec: Codec, bucket: seq<StreamValue>) returns (ok: bool, votes: multiset<nat>)
    ensures ok <==> forall v :: v in bucket ==> !NilInside(v)
    ensures ok ==> forall x: nat :: votes[x] == Count(bucket, IsVote(codec, x))
  {
    votes := multiset{};
    for i := 0 to |bucket|
      invariant forall j :: 0 <= j < i ==> !NilInside(bucket[j])
      invariant forall x: nat :: votes[x] == Count(bucket[..i], IsVote(codec, x))
    {
      hide Count, VoteForm;
      if NilInside(bucket[i]) {
        assert bucket[i] in bucket;
        return false, votes;
      }
      forall x: nat { CountNext(bucket, i, IsVote(codec, x)); }
      votes := votes + multiset{codec.encode(VoteForm(bucket[i]))};
    }
    assert bucket[..|bucket|] == bucket;
    ok := true;
  }

  ghost predicate AscendingKeys(keys: seq<nat>, votes: multiset<nat>) {
    && (forall i, j :: 0 <= i < j < |keys| ==> keys[i] < keys[j])
    && (forall x: nat :: x in votes <==> x in keys)
  }

  method SortKeys(votes: multiset<nat>) returns (keys: seq<nat>)
    ensures AscendingKeys(keys, votes)
  {
    var drained: seq<nat> := Drain(set x: nat | x in votes);
    keys := Sort(drained, NatLeq);
    SameElements(drained, keys);
    PermutationKeepsNoDuplicates(drained, keys);
  }

  ghost predicate Picked(votes: multiset<nat>, best: Option<nat>, count: nat) {
    && (best.None? ==> count == 0)
    && (best.Some? ==> count == votes[best.value] > 0)
    && (forall y: nat :: votes[y] <= count)
    && (best.Some? ==> forall y: nat :: y < best.value ==> votes[y] < count)
  }

  /** Scans the keys in ascending order for the first with the most votes. */
  method PickMode(votes: multiset<nat>) returns (best: Option<nat>, count: nat)
    ensures Picked(votes, best, count)
  {
    hide AscendingKeys, Picked;
    var keys := SortKeys(votes);
    best, count := None, 0;
    ghost var at := 0;
    for i := 0 to |keys|
      invariant best.None? ==> count == 0
      invariant best.Some? ==> at < |keys| && keys[at] == best.value && count == votes[best.value] > 0
      invariant best.Some? ==> forall j :: 0 <= j < at ==> votes[keys[j]] < count
      invariant forall j :: 0 <= j < i ==> votes[keys[j]] <= count
    {
      if votes[keys[i]] > count {
        best, count, at := Some(keys[i]), votes[keys[i]], i;
      }
    }
    AllScanned(keys, votes, best, count, at);
  }

  lemma AllScanned(keys: seq<nat>, votes: multiset<nat>, best: Option<nat>, count: nat, at: nat)
    requires AscendingKeys(keys, votes)
    requires best.None? ==> count == 0
    requires best.Some? ==>
               && at < |keys| && keys[at] == best.value && count == votes[best.value] > 0
               && forall j :: 0 <= j < at ==> votes[keys[j]] < count
    requires forall j :: 0 <= j < |keys| ==> votes[keys[j]] <= count
    ensures Picked(votes, best, count)
  {
    forall y: nat ensures votes[y] <= count && (best.Some? && y < best.value ==> votes[y] < count) {
      if y in votes {
        var j :| 0 <= j < |keys| && keys[j] == y;
      }
    }
  }

  /** The most common bucket holds an empty timestamped value. */
  ghost predicate HoldsNil(values: Contributions) {
    exists kind: nat :: IsMostCommon(values, kind) && exists u :: u in Selected(values, IfKind(kind)) && NilInside(u)
  }

  /** The one answer the contributions call for. */
  ghost predicate IsModeAnswer(
    codec: Codec, values: Contributions, minContributions: nat, r: Result<StreamValue, AggregationError>)
  {
    match r
    case Ok(v) => IsMode(codec, values, minContributions, v)
    case Err(NilValue) => HoldsNil(values)
    case Err(TooFewContributions) => !HoldsNil(values) && forall v :: !IsMode(codec, values, minContributions, v)
    case Err(UnsupportedType) => false
  }

  function VotesWith(u: StreamValue): Option<StreamValue> -> bool {
    (o: Option<StreamValue>) => o.Some? && VoteForm(o.value) == VoteForm(u)
  }

  /** Some contribution of the most common type has enough that vote alike. */
  ghost predicate EnoughAgree(values: Contributions, minContributions: nat) {
    exists o :: o in values && o.Some? && IsMostCommon(values, Kind(o.value)) &&
      Count(values, VotesWith(o.value)) >= minContributions
  }

  method ModeAggregator(codec: Codec, values: Contributions, minContributions: nat)
    returns (r: Result<StreamValue, AggregationError>)
    requires minContributions > 0
    ensures IsModeAnswer(codec, values, minContributions, r)
    ensures r.Ok? <==> exists v :: IsMode(codec, values, minContributions, v)
    ensures r == Err(NilValue) <==> HoldsNil(values)
    ensures Lossless(codec) ==> (r.Ok? <==> !HoldsNil(values) && EnoughAgree(values, minContributions))
  {
    hide Selected, Count, IsMostCommon, VoteForm, Winning, IsBest, Kind, Lossless, EnoughAgree;
    var kind, bucket := MostCommonType(values);
    OneMostCommon(values, kind);
    EnoughAgreeIff(codec, values, kind, minContributions);
    var ok, votes := CountVotes(codec, bucket);
    if !ok {
      return Err(NilValue);
    }
    var best, count := PickMode(votes);
    PickedIsBest(codec, bucket, votes, best, count);
    if count < minContributions {
      return Err(TooFewContributions);
    }
    r := Ok(Winning(codec, bucket, best.value));
  }

  lemma OneMostCommon(values: Contributions, kind: nat)
    requires IsMostCommon(values, kind)
    ensures forall k: nat :: IsMostCommon(values, k) ==> k == kind
  {
    hide IsMostCommon;
    forall k: nat | IsMostCommon(values, k) ensures k == kind {
      MostCommonPermutes(values, values, k, kind);
    }
  }

  lemma PickedIsBest(codec: Codec, bucket: seq<StreamValue>, votes: multiset<nat>, best: Option<nat>, count: nat)
    requires Picked(votes, best, count) && forall x: nat :: votes[x] == Count(bucket, IsVote(codec, x))
    ensures best.Some? ==> IsBest(codec, bucket, best.value) && Count(bucket, IsVote(codec, best.value)) == count
    ensures best.None? ==> count == 0
    ensures forall x: nat :: Count(bucket, IsVote(codec, x)) <= count
  {
    hide Count;
  }

  lemma {:induction false} StripKeeps(c: int, e: int)
    requires c != 0
    ensures Value(Strip(c, e)) == Value(Decimal(c, e)) && IsCanonical(Strip(c, e))
    ensures e <= MAX_DECIMAL_EXPONENT ==> Strip(c, e).exponent <= MAX_DECIMAL_EXPONENT
    decreases MAX_DECIMAL_EXPONENT - e
  {
    hide Value;
    if e < MAX_DECIMAL_EXPONENT && c % 10 == 0 {
      StripKeeps(c / 10, e + 1);
      ValueStep(c / 10, e);
      assert c == 10 * (c / 10);
    }
  }

  lemma CanonicalAlike(a: Decimal, b: Decimal)
    requires a.exponent <= MAX_DECIMAL_EXPONENT && b.exponent <= MAX_DECIMAL_EXPONENT
    ensures Canonical(a) == Canonical(b) <==> Value(a) == Value(b)
  {
    hide Value;
    ZeroValue(a.exponent);
    ZeroValue(b.exponent);
    ZeroValue(0);
    if a.coefficient != 0 { StripKeeps(a.coefficient, a.exponent); }
    if b.coefficient != 0 { StripKeeps(b.coefficient, b.exponent); }
    CanonicalIsUnique(Canonical(a), Canonical(b));
  }

  /** Every decimal of the value is within the exponent bound. */
  predicate Bounded(v: StreamValue) {
    match v
    case Number(d) => d.exponent <= MAX_DECIMAL_EXPONENT
    case Quote(bid, benchmark, ask) =>
      && bid.exponent <= MAX_DECIMAL_EXPONENT && benchmark.exponent <= MAX_DECIMAL_EXPONENT
      && ask.exponent <= MAX_DECIMAL_EXPONENT
    case Timestamped(_, inner) => inner.Some? ==> Bounded(inner.value)
  }

  /** The same type, with numerically equal parts. */
  predicate SameParts(a: StreamValue, b: StreamValue) {
    match a
    case Number(d) => b.Number? && Value(d) == Value(b.decimal)
    case Quote(bid, benchmark, ask) =>
      b.Quote? && Value(bid) == Value(b.bid) && Value(benchmark) == Value(b.benchmark) && Value(ask) == Value(b.ask)
    case Timestamped(_, _) => a == b
  }

  /** Values within the exponent bound vote alike exactly when they are of one type and
      numerically equal, part by part; a timestamped value votes for what is inside it,
      whatever its time. */
  lemma EqualNumbersVoteAlike(a: StreamValue, b: StreamValue)
    requires Bounded(a) && Bounded(b)
    ensures VoteForm(a) == VoteForm(b) <==>
            if a.Timestamped? && b.Timestamped? && a.inner.Some? && b.inner.Some?
            then SameParts(a.inner.value, b.inner.value) else SameParts(a, b)
  {
    hide Canonical, Value, SameParts, CanonicalValue;
    if a.Timestamped? && b.Timestamped? && a.inner.Some? && b.inner.Some? {
      PartsAlike(a.inner.value, b.inner.value);
    } else {
      PartsAlike(a, b);
      CanonicalKeepsKind(a);
      CanonicalKeepsKind(b);
      TimestampedAlike(a, b);
      TimestampedAlike(b, a);
    }
  }

  lemma PartsAlike(a: StreamValue, b: StreamValue)
    requires Bounded(a) && Bounded(b)
    ensures CanonicalValue(a) == CanonicalValue(b) <==> SameParts(a, b)
  {
    hide Canonical, Value;
    if a.Number? && b.Number? { CanonicalAlike(a.decimal, b.decimal); }
    if a.Quote? && b.Quote? {
      CanonicalAlike(a.bid, b.bid);
      CanonicalAlike(a.benchmark, b.benchmark);
      CanonicalAlike(a.ask, b.ask);
    }
  }

  lemma TimestampedAlike(a: StreamValue, b: StreamValue)
    ensures a.Timestamped? ==> CanonicalValue(a) == a && (SameParts(a, b) <==> a == b)
    ensures SameParts(a, b) ==> Kind(a) == Kind(b)
  {
    hide Value;
  }

  function Cleared(v: StreamValue): StreamValue { if v.Timestamped? then v.(at := 0) else v }

  /** Contributions that voted for `v`. */
  function AgreesOn(v: StreamValue): Option<StreamValue> -> bool {
    (o: Option<StreamValue>) => o.Some? && VoteForm(o.value) == Cleared(v)
  }

  function AgreesUpTo(v: StreamValue, t: nat): Option<StreamValue> -> bool {
    (o: Option<StreamValue>) => AgreesOn(v)(o) && o.value.Timestamped? && o.value.at <= t
  }

  function AgreesFrom(v: StreamValue, t: nat): Option<StreamValue> -> bool {
    (o: Option<StreamValue>) => AgreesOn(v)(o) && o.value.Timestamped? && t <= o.value.at
  }

  /** The mode by counting contributions: it is of the most common type and was voted for by
      at least `minContributions`. No contribution of that type was voted for more often, and
      none as often with a lower key. Its time is the middle one of those that agreed. */
  lemma ModeByCounting(codec: Codec, values: Contributions, minContributions: nat, v: StreamValue)
    requires Lossless(codec) && IsMode(codec, values, minContributions, v)
    ensures IsMostCommon(values, Kind(v))
    ensures Count(values, AgreesOn(v)) >= minContributions && Count(values, AgreesOn(v)) > 0
    ensures forall o :: o in values && o.Some? && Kind(o.value) == Kind(v) ==>
              && Count(values, VotesWith(o.value)) <= Count(values, AgreesOn(v))
              && (codec.encode(VoteForm(o.value)) < codec.encode(Cleared(v)) ==>
                    Count(values, VotesWith(o.value)) < Count(values, AgreesOn(v)))
    ensures v.Timestamped? ==>
              MiddleCounts(Count(values, AgreesOn(v)), Count(values, AgreesUpTo(v, v.at)),
                           Count(values, AgreesFrom(v, v.at)))
  {
    hide Selected, Count, VoteForm, Winning, IsMostCommon, Lossless, Kind, MiddleCounts;
    var kind: nat, x: nat :|
      && IsMostCommon(values, kind)
      && (forall u :: u in Selected(values, IfKind(kind)) ==> !NilInside(u))
      && IsBest(codec, Selected(values, IfKind(kind)), x)
      && Count(Selected(values, IfKind(kind)), IsVote(codec, x)) >= minContributions
      && v == Winning(codec, Selected(values, IfKind(kind)), x);
    var bucket := Selected(values, IfKind(kind));
    CountPositive(bucket, IsVote(codec, x));
    var i :| 0 <= i < |bucket| && IsVote(codec, x)(bucket[i]);
    assert bucket[i] in bucket;
    WinningForm(codec, bucket, x, i);
    SelectedKind(values, kind);
    KindOfForm(bucket[i]);
    KindOfForm(v);
    assert Kind(v) == kind by { ClearedKind(v); }
    VotersAgree(codec, values, bucket[i]);
    SameCount(values, VotesWith(bucket[i]), AgreesOn(v));
    forall o | o in values && o.Some? && Kind(o.value) == kind
      ensures && Count(values, VotesWith(o.value)) <= Count(values, AgreesOn(v))
              && (codec.encode(VoteForm(o.value)) < codec.encode(Cleared(v)) ==>
                    Count(values, VotesWith(o.value)) < Count(values, AgreesOn(v)))
    {
      VotersAgree(codec, values, o.value);
    }
    if v.Timestamped? { VotersTimes(codec, values, kind, x, v); }
  }

  lemma ClearedKind(v: StreamValue)
    ensures Kind(Cleared(v)) == Kind(v)
  {
  }

  lemma KindOfForm(v: StreamValue)
    ensures Kind(VoteForm(v)) == Kind(v)
  {
    CanonicalKeepsKind(v);
  }

  lemma {:induction false} SelectedKind(values: Contributions, kind: nat)
    ensures forall u :: u in Selected(values, IfKind(kind)) ==> Kind(u) == kind
  {
    hide Kind;
    if values != [] { SelectedKind(values[1..], kind); }
  }

  /** A key counts exactly the contributions that vote alike. */
  lemma VotersAgree(codec: Codec, values: Contributions, u: StreamValue)
    requires Lossless(codec)
    ensures Count(Selected(values, IfKind(Kind(u))), IsVote(codec, codec.encode(VoteForm(u)))) ==
            Count(values, VotesWith(u))
  {
    hide VoteForm, Count, Selected, Kind;
    var kind, x := Kind(u), codec.encode(VoteForm(u));
    CountSelected(values, IfKind(kind), IsVote(codec, x));
    forall o | o in values ensures Through(IfKind(kind), IsVote(codec, x))(o) <==> VotesWith(u)(o) {
      assert codec.decode(x) == VoteForm(u);
      if o.Some? {
        assert codec.decode(codec.encode(VoteForm(o.value))) == VoteForm(o.value);
        KindOfForm(o.value);
        KindOfForm(u);
      }
    }
    SameCount(values, Through(IfKind(kind), IsVote(codec, x)), VotesWith(u));
  }

  lemma EnoughAgreeIff(codec: Codec, values: Contributions, kind: nat, minContributions: nat)
    requires IsMostCommon(values, kind) && minContributions > 0
    ensures Lossless(codec) ==>
              (EnoughAgree(values, minContributions) <==>
                 exists x: nat :: Count(Selected(values, IfKind(kind)), IsVote(codec, x)) >= minContributions)
  {
    hide VoteForm, Count, Selected, Kind, IsMostCommon, Lossless;
    var bucket := Selected(values, IfKind(kind));
    if Lossless(codec) {
      OneMostCommon(values, kind);
      if EnoughAgree(values, minContributions) {
        var o :| o in values && o.Some? && IsMostCommon(values, Kind(o.value)) &&
          Count(values, VotesWith(o.value)) >= minContributions;
        VotersAgree(codec, values, o.value);
      }
      if x: nat :| Count(bucket, IsVote(codec, x)) >= minContributions {
        CountPositive(bucket, IsVote(codec, x));
        var i :| 0 <= i < |bucket| && IsVote(codec, x)(bucket[i]);
        var j := SelectedFrom(values, IfKind(kind), bucket[i]);
        VotersAgree(codec, values, bucket[i]);
        assert values[j] in values && values[j].Some? && values[j].value == bucket[i];
      }
    }
  }

  /** The vote fails on a nil value exactly when most contributions are timestamped and one
      of them holds nothing. */
  lemma HoldsNilIff(values: Contributions)
    ensures HoldsNil(values) <==>
            && MostlyTimestamped(values)
            && exists o :: o in values && o.Some? && o.value.Timestamped? && o.value.inner.None?
  {
    hide Count, Selected, IsMostCommon;
    var kind := SomeMostCommon(values);
    OneMostCommon(values, kind);
    MostCommonIff(values, kind);
    var bucket := Selected(values, IfKind(kind));
    if u :| u in bucket && NilInside(u) {
      SelectedKind(values, kind);
      var j := SelectedFrom(values, IfKind(kind), u);
      assert values[j] in values;
    }
    if o :| o in values && o.Some? && o.value.Timestamped? && o.value.inner.None? {
      if kind == 2 { SelectedHas(values, IfKind(2), o); }
    }
  }

  lemma {:induction false} SelectedHas<T, U>(values: seq<T>, view: T -> Option<U>, o: T)
    requires o in values && view(o).Some?
    ensures view(o).value in Selected(values, view)
  {
    if values[0] != o { SelectedHas(values[1..], view, o); }
  }

  lemma SomeMostCommon(values: Contributions) returns (kind: nat)
    ensures IsMostCommon(values, kind)
  {
    hide Selected;
    var n, q, t := |Selected(values, IfKind(0))|, |Selected(values, IfKind(1))|, |Selected(values, IfKind(2))|;
    kind := if n >= q && n >= t then 0 else if q >= t then 1 else 2;
    forall j: nat ensures j > 2 ==> Selected(values, IfKind(j)) == [] { NoOtherType(values, j); }
  }

  lemma VotersTimes(codec: Codec, values: Contributions, kind: nat, x: nat, v: StreamValue)
    requires v.Timestamped? && v == Winning(codec, Selected(values, IfKind(kind)), x) && kind == Kind(v)
    requires Count(Selected(values, IfKind(kind)), IsVote(codec, x)) > 0
    requires forall u :: IsVote(codec, x)(u) <==> VoteForm(u) == Cleared(v)
    ensures MiddleCounts(Count(values, AgreesOn(v)), Count(values, AgreesUpTo(v, v.at)),
                         Count(values, AgreesFrom(v, v.at)))
  {
    hide VoteForm, Count, Selected, MiddleCounts, OrdersBy, TotalPreorder, Kind;
    var bucket := Selected(values, IfKind(kind));
    var low := (u: StreamValue) => IsVote(codec, x)(u) && u.Timestamped? && u.at <= v.at;
    var high := (u: StreamValue) => IsVote(codec, x)(u) && u.Timestamped? && v.at <= u.at;
    SelectedKind(values, kind);
    forall u ensures Kind(u) == kind <==> u.Timestamped? { Timestampness(u, v); }
    SeenCount(bucket, VoteTime(codec, x), IsVote(codec, x));
    NatOrders();
    MiddleByCounting<StreamValue, nat>(bucket, VoteTime(codec, x), NatLeq, NatValue, IsVote(codec, x), low, high);
    forall o | o in values
      ensures Through(IfKind(kind), IsVote(codec, x))(o) <==> AgreesOn(v)(o)
      ensures Through(IfKind(kind), low)(o) <==> AgreesUpTo(v, v.at)(o)
      ensures Through(IfKind(kind), high)(o) <==> AgreesFrom(v, v.at)(o)
    {
      if o.Some? {
        KindOfForm(o.value);
        ClearedKind(v);
      }
    }
    CountSelected(values, IfKind(kind), IsVote(codec, x));
    CountSelected(values, IfKind(kind), low);
    CountSelected(values, IfKind(kind), high);
    SameCount(values, Through(IfKind(kind), IsVote(codec, x)), AgreesOn(v));
    SameCount(values, Through(IfKind(kind), low), AgreesUpTo(v, v.at));
    SameCount(values, Through(IfKind(kind), high), AgreesFrom(v, v.at));
  }

  lemma Timestampness(u: StreamValue, v: StreamValue)
    requires v.Timestamped?
    ensures Kind(u) == Kind(v) <==> u.Timestamped?
  {
  }

  lemma WinningForm(codec: Codec, bucket: seq<StreamValue>, x: nat, i: nat)
    requires Lossless(codec) && i < |bucket| && IsVote(codec, x)(bucket[i]) && !NilInside(bucket[i])
    ensures Cleared(Winning(codec, bucket, x)) == VoteForm(bucket[i])
    ensures forall u :: IsVote(codec, x)(u) <==> VoteForm(u) == VoteForm(bucket[i])
  {
    hide Selected, MiddleTime, CanonicalValue;
    CanonicalKeepsKind(bucket[i]);
    forall u ensures IsVote(codec, x)(u) <==> VoteForm(u) == VoteForm(bucket[i]) {
      assert codec.decode(codec.encode(VoteForm(u))) == VoteForm(u);
    }
  }

  lemma CanonicalKeepsKind(v: StreamValue)
    ensures Kind(CanonicalValue(v)) == Kind(v)
  {
  }

  // -------------------------------------------------- permuting contributions

  /** Selecting from a permutation selects a permutation. */
  lemma {:induction false} SelectedPermutation<T, U>(a: seq<T>, b: seq<T>, view: T -> Option<U>)
    requires multiset(a) == multiset(b)
    ensures multiset(Selected(a, view)) == multiset(Selected(b, view))
    decreases |a|
  {
    if a == [] {
      assert |multiset(b)| == |b| == 0;
    } else {
      var i := TakeHead(a, b);
      SelectedPermutation(a[1..], b[..i] + b[i + 1..], view);
      SelectedConcat(b[..i], b[i + 1..], view);
      SelectedConcat(b[..i], [b[i]] + b[i + 1..], view);
      assert ([b[i]] + b[i + 1..])[1..] == b[i + 1..];
    }
  }

  lemma SameSizes<T>(a: seq<T>, b: seq<T>)
    requires multiset(a) == multiset(b)
    ensures |a| == |b|
  {
    assert |a| == |multiset(a)| && |b| == |multiset(b)|;
  }

  lemma MostCommonPermutes(a: Contributions, b: Contributions, k: nat, j: nat)
    requires multiset(a) == multiset(b) && IsMostCommon(a, k) && IsMostCommon(b, j)
    ensures k == j
  {
    hide Selected;
    forall i: nat ensures |Selected(a, IfKind(i))| == |Selected(b, IfKind(i))| {
      SelectedPermutation(a, b, IfKind(i));
      SameSizes(Selected(a, IfKind(i)), Selected(b, IfKind(i)));
    }
    assert |Selected(a, IfKind(j))| == |Selected(b, IfKind(j))| && |Selected(a, IfKind(k))| == |Selected(b, IfKind(k))|;
  }

  lemma MostCommonCarries(a: Contributions, b: Contributions, k: nat)
    requires multiset(a) == multiset(b) && IsMostCommon(a, k)
    ensures IsMostCommon(b, k)
  {
    hide Selected;
    forall i: nat ensures |Selected(a, IfKind(i))| == |Selected(b, IfKind(i))| {
      SelectedPermutation(a, b, IfKind(i));
      SameSizes(Selected(a, IfKind(i)), Selected(b, IfKind(i)));
    }
    assert |Selected(a, IfKind(k))| == |Selected(b, IfKind(k))|;
  }

  lemma BestPermutes(codec: Codec, a: seq<StreamValue>, b: seq<StreamValue>, x: nat, y: nat)
    requires multiset(a) == multiset(b) && IsBest(codec, a, x) && IsBest(codec, b, y)
    ensures x == y
  {
    hide Count;
    forall z: nat ensures Count(a, IsVote(codec, z)) == Count(b, IsVote(codec, z)) {
      CountPermutation(a, b, IsVote(codec, z));
    }
    assert Count(a, IsVote(codec, x)) == Count(b, IsVote(codec, y));
  }

  lemma BestCarries(codec: Codec, a: seq<StreamValue>, b: seq<StreamValue>, x: nat)
    requires multiset(a) == multiset(b) && IsBest(codec, a, x)
    ensures IsBest(codec, b, x) && Count(a, IsVote(codec, x)) == Count(b, IsVote(codec, x))
  {
    hide Count;
    forall z: nat ensures Count(a, IsVote(codec, z)) == Count(b, IsVote(codec, z)) {
      CountPermutation(a, b, IsVote(codec, z));
    }
    assert Count(a, IsVote(codec, x)) == Count(b, IsVote(codec, x));
  }

  lemma WinningPermutes(codec: Codec, a: seq<StreamValue>, b: seq<StreamValue>, x: nat)
    requires multiset(a) == multiset(b)
    ensures Winning(codec, a, x) == Winning(codec, b, x)
  {
    var s, t := Selected(a, VoteTime(codec, x)), Selected(b, VoteTime(codec, x));
    SelectedPermutation(a, b, VoteTime(codec, x));
    SameSizes(s, t);
    SortedPermutationIsUnique(Sort(s, NatLeq), Sort(t, NatLeq));
  }

  lemma NilPermutes(a: Contributions, b: Contributions)
    requires multiset(a) == multiset(b) && HoldsNil(a)
    ensures HoldsNil(b)
  {
    hide Selected, IsMostCommon;
    var k: nat :| IsMostCommon(a, k) && exists u :: u in Selected(a, IfKind(k)) && NilInside(u);
    MostCommonCarries(a, b, k);
    SelectedPermutation(a, b, IfKind(k));
    SameElements(Selected(a, IfKind(k)), Selected(b, IfKind(k)));
  }

  lemma ModePermutes(codec: Codec, a: Contributions, b: Contributions, minContributions: nat, v: StreamValue)
    requires multiset(a) == multiset(b) && IsMode(codec, a, minContributions, v)
    ensures IsMode(codec, b, minContributions, v)
  {
    hide Selected, IsMostCommon, IsBest, Winning, Count;
    var k: nat, x: nat :|
      && IsMostCommon(a, k)
      && (forall u :: u in Selected(a, IfKind(k)) ==> !NilInside(u))
      && IsBest(codec, Selected(a, IfKind(k)), x)
      && Count(Selected(a, IfKind(k)), IsVote(codec, x)) >= minContributions
      && v == Winning(codec, Selected(a, IfKind(k)), x);
    var s, t := Selected(a, IfKind(k)), Selected(b, IfKind(k));
    MostCommonCarries(a, b, k);
    SelectedPermutation(a, b, IfKind(k));
    SameElements(s, t);
    BestCarries(codec, s, t, x);
    WinningPermutes(codec, s, t, x);
  }

  lemma ModeIsUnique(codec: Codec, values: Contributions, minContributions: nat, v: StreamValue, w: StreamValue)
    requires IsMode(codec, values, minContributions, v) && IsMode(codec, values, minContributions, w)
    ensures v == w && !HoldsNil(values)
  {
    hide Selected, IsMostCommon, IsBest, Winning, Count;
    var k: nat, x: nat :|
      && IsMostCommon(values, k)
      && (forall u :: u in Selected(values, IfKind(k)) ==> !NilInside(u))
      && IsBest(codec, Selected(values, IfKind(k)), x)
      && v == Winning(codec, Selected(values, IfKind(k)), x);
    var j: nat, y: nat :|
      && IsMostCommon(values, j)
      && IsBest(codec, Selected(values, IfKind(j)), y)
      && w == Winning(codec, Selected(values, IfKind(j)), y);
    OneMostCommon(values, k);
    BestPermutes(codec, Selected(values, IfKind(k)), Selected(values, IfKind(k)), x, y);
  }

  /** The whole answer, value or error, does not depend on the order of the contributions. */
  lemma ModeIsPermutationInvariant(
    codec: Codec, a: Contributions, b: Contributions, minContributions: nat,
    r: Result<StreamValue, AggregationError>, s: Result<StreamValue, AggregationError>)
    requires multiset(a) == multiset(b)
    requires IsModeAnswer(codec, a, minContributions, r) && IsModeAnswer(codec, b, minContributions, s)
    ensures r == s
  {
    hide IsMode, HoldsNil;
    if r.Ok? {
      ModePermutes(codec, a, b, minContributions, r.value);
      ModeIsUnique(codec, b, minContributions, r.value, r.value);
    }
    if s.Ok? {
      ModePermutes(codec, b, a, minContributions, s.value);
      ModeIsUnique(codec, a, minContributions, s.value, s.value);
    }
    if HoldsNil(a) { NilPermutes(a, b); }
    if HoldsNil(b) { NilPermutes(b, a); }
    if r.Ok? && s.Ok? { ModeIsUnique(codec, b, minContributions, r.value, s.value); }
  }
}
