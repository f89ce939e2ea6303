/** Consensus prices of Mercury v3 (mercury/aggregate_functions.go,
    mercury/v3/mercury.go). */
module Mercury {
  import opened Collections
  import opened Medians

  datatype Prices = Prices(bid: int, benchmark: int, ask: int)

  /** An observation claims valid prices or none. */
  datatype Observation = Observation(pricesValid: bool, prices: Prices)

  predicate PricesInOrder(p: Prices) { p.bid <= p.benchmark <= p.ask }

  /** A claim of valid prices that are out of order discards the whole observation. */
  function Parse(o: Observation): Option<Observation> {
    if o.pricesValid && !PricesInOrder(o.prices) then None else Some(o)
  }

  function BidOf(o: Observation): Option<int> { if o.pricesValid then Some(o.prices.bid) else None }

  function BenchmarkOf(o: Observation): Option<int> { if o.pricesValid then Some(o.prices.benchmark) else None }

  function AskOf(o: Observation): Option<int> { if o.pricesValid then Some(o.prices.ask) else None }

  /** The rank median of one price over the observations that have it. */
  function Median(paos: seq<Observation>, price: Observation -> Option<int>): int
    requires Selected(paos, price) != []
  {
    Sort(Selected(paos, price), IntLeq)[|Selected(paos, price)| / 2]
  }

  method GetConsensusPrice(paos: seq<Observation>, price: Observation -> Option<int>, f: nat) returns (r: Option<int>)
    ensures r.Some? <==> |Selected(paos, price)| >= f + 1
    ensures r.Some? ==> r.value == Median(paos, price)
  {
    var valid := Collect(paos, price);
    if |valid| < f + 1 {
      return None;
    }
    r := Some(Sort(valid, IntLeq)[|valid| / 2]);
  }

  // What the prices of a report are taken from: the observations that claim valid prices
  // and have them in order, by their own fields.

  function Claims(): Observation -> bool {
    (o: Observation) => o.pricesValid && o.prices.bid <= o.prices.benchmark <= o.prices.ask
  }

  function BidUpTo(m: int): Observation -> bool { (o: Observation) => Claims()(o) && o.prices.bid <= m }

  function BidFrom(m: int): Observation -> bool { (o: Observation) => Claims()(o) && m <= o.prices.bid }

  function BenchmarkUpTo(m: int): Observation -> bool { (o: Observation) => Claims()(o) && o.prices.benchmark <= m }

  function BenchmarkFrom(m: int): Observation -> bool { (o: Observation) => Claims()(o) && m <= o.prices.benchmark }

  function AskUpTo(m: int): Observation -> bool { (o: Observation) => Claims()(o) && o.prices.ask <= m }

  function AskFrom(m: int): Observation -> bool { (o: Observation) => Claims()(o) && m <= o.prices.ask }

  /** Each price by counting: more than half of the claims are at most it, and the rest, or
      more, at least it. */
  predicate PriceCounts(observations: seq<Observation>, p: Prices) {
    var n := Count(observations, Claims());
    && MiddleCounts(n, Count(observations, BidUpTo(p.bid)), Count(observations, BidFrom(p.bid)))
    && MiddleCounts(n, Count(observations, BenchmarkUpTo(p.benchmark)), Count(observations, BenchmarkFrom(p.benchmark)))
    && MiddleCounts(n, Count(observations, AskUpTo(p.ask)), Count(observations, AskFrom(p.ask)))
  }

  function Claimed(price: Observation -> Option<int>): Observation -> Option<int> {
    (o: Observation) => if Claims()(o) then price(o) else None
  }

  lemma {:induction false} ClaimedSelected(observations: seq<Observation>, price: Observation -> Option<int>)
    requires forall o :: price(o).Some? <==> o.pricesValid
    ensures Selected(Selected(observations, Parse), price) == Selected(observations, Claimed(price))
    ensures |Selected(observations, Claimed(price))| == Count(observations, Claims())
  {
    if observations != [] {
      ClaimedSelected(observations[1..], price);
      if Parse(observations[0]).Some? {
        assert Selected(observations, Parse)[1..] == Selected(observations[1..], Parse);
      } else {
        assert Selected(observations, Parse) == Selected(observations[1..], Parse);
      }
    }
  }

  lemma ConsensusByCounting(observations: seq<Observation>, p: Prices)
    requires IsConsensus(Selected(observations, Parse), p)
    ensures PriceCounts(observations, p)
  {
    hide Selected, Count, MiddleCounts, SortedBy, OrdersBy, TotalPreorder, Parse;
    ClaimedSelected(observations, BidOf);
    ClaimedSelected(observations, BenchmarkOf);
    ClaimedSelected(observations, AskOf);
    IntOrders();
    MiddleByCounting(
      observations, Claimed(BidOf), IntLeq, IntValue, Claims(), BidUpTo(p.bid), BidFrom(p.bid));
    MiddleByCounting(
      observations, Claimed(BenchmarkOf), IntLeq, IntValue, Claims(), BenchmarkUpTo(p.benchmark),
      BenchmarkFrom(p.benchmark));
    MiddleByCounting(
      observations, Claimed(AskOf), IntLeq, IntValue, Claims(), AskUpTo(p.ask), AskFrom(p.ask));
  }

  predicate AllParsed(paos: seq<Observation>) { forall o :: o in paos ==> Parse(o) == Some(o) }

  /** Which of the price checks of a report fail. */
  datatype PriceChecks = PriceChecks(
    benchmark: bool, bidInvariant: bool, askInvariant: bool, bid: bool, ask: bool)

  predicate Between(x: int, lo: int, hi: int) { lo <= x <= hi }

  function Validate(p: Prices, min: int, max: int): PriceChecks {
    PriceChecks(Between(p.benchmark, min, max), Between(p.bid, min, p.benchmark), Between(p.ask, p.benchmark, max),
                Between(p.bid, min, max), Between(p.ask, min, max))
  }

  predicate AllPass(c: PriceChecks) { c.benchmark && c.bidInvariant && c.askInvariant && c.bid && c.ask }

  /** An observation is kept unless it claims valid prices that do not ascend. */
  function Parses(): Observation -> bool {
    (o: Observation) => o.pricesValid ==> o.prices.bid <= o.prices.benchmark <= o.prices.ask
  }

  method ParseAll(observations: seq<Observation>) returns (paos: seq<Observation>)
    ensures paos == Selected(observations, Parse) && AllParsed(paos)
    ensures |paos| == Count(observations, Parses())
    ensures forall o :: o in paos <==> o in observations && Parses()(o)
  {
    paos := Collect(observations, Parse);
    ParsedSelected(observations);
  }

  lemma {:induction false} ParsedSelected(observations: seq<Observation>)
    ensures AllParsed(Selected(observations, Parse))
    ensures |Selected(observations, Parse)| == Count(observations, Parses())
    ensures forall o :: o in Selected(observations, Parse) <==> o in observations && Parses()(o)
  {
    if observations != [] { ParsedSelected(observations[1..]); }
  }

  /** Each price is the median of that price over the observations claiming valid ones. */
  ghost predicate IsConsensus(paos: seq<Observation>, p: Prices) {
    && Selected(paos, BidOf) != [] && p.bid == Median(paos, BidOf)
    && Selected(paos, BenchmarkOf) != [] && p.benchmark == Median(paos, BenchmarkOf)
    && Selected(paos, AskOf) != [] && p.ask == Median(paos, AskOf)
  }

  /** The consensus prices of a report, which fail together or not at all. */
  method BuildPrices(paos: seq<Observation>, f: nat) returns (r: Option<Prices>)
    requires AllParsed(paos)
    ensures r.Some? <==> |Selected(paos, BenchmarkOf)| >= f + 1
    ensures r.Some? ==> IsConsensus(paos, r.value) && PricesInOrder(r.value)
  {
    hide Selected, Parse, Median;
    var benchmark := GetConsensusPrice(paos, BenchmarkOf, f);
    var bid := GetConsensusPrice(paos, BidOf, f);
    var ask := GetConsensusPrice(paos, AskOf, f);
    SameLength(paos, BidOf, BenchmarkOf);
    SameLength(paos, AskOf, BenchmarkOf);
    if benchmark.None? || bid.None? || ask.None? {
      return None;
    }
    r := Some(Prices(bid.value, benchmark.value, ask.value));
    ConsensusInOrder(paos, r.value);
  }

  /** Separately taken medians of ordered prices are ordered again. */
  lemma ConsensusInOrder(paos: seq<Observation>, p: Prices)
    requires AllParsed(paos) && IsConsensus(paos, p)
    ensures PricesInOrder(p)
  {
    hide Selected, SortedBy;
    SameLength(paos, BidOf, BenchmarkOf);
    SameLength(paos, AskOf, BenchmarkOf);
    var k := |Selected(paos, BenchmarkOf)| / 2;
    RankMonotoneViews(paos, BidOf, BenchmarkOf, k);
    RankMonotoneViews(paos, BenchmarkOf, AskOf, k);
  }

  /** The ordering checks against the benchmark are never why a report fails: its prices
      pass exactly when they lie within the configured bounds. */
  method CheckReport(observations: seq<Observation>, f: nat, min: int, max: int)
    returns (checks: Option<PriceChecks>, prices: Option<Prices>)
    ensures prices.Some? <==> checks.Some?
    ensures prices.Some? <==> Count(observations, Claims()) >= f + 1
    ensures prices.Some? ==> PriceCounts(observations, prices.value)
    ensures prices.Some? ==> prices.value.bid <= prices.value.benchmark <= prices.value.ask
    ensures checks.Some? ==>
              && (checks.value.benchmark <==> min <= prices.value.benchmark <= max)
              && (checks.value.bidInvariant <==> min <= prices.value.bid <= prices.value.benchmark)
              && (checks.value.askInvariant <==> prices.value.benchmark <= prices.value.ask <= max)
              && (checks.value.bid <==> min <= prices.value.bid <= max)
              && (checks.value.ask <==> min <= prices.value.ask <= max)
              && (AllPass(checks.value) <==> min <= prices.value.bid && prices.value.ask <= max)
              && (!checks.value.bidInvariant ==> !checks.value.bid)
              && (!checks.value.askInvariant ==> !checks.value.ask)
  {
    hide Selected, Parse, IsConsensus, Count, PriceCounts;
    var paos := ParseAll(observations);
    prices := BuildPrices(paos, f);
    ClaimedSelected(observations, BenchmarkOf);
    if prices.Some? { ConsensusByCounting(observations, prices.value); }
    checks := if prices.Some? then Some(Validate(prices.value, min, max)) else None;
  }
}
