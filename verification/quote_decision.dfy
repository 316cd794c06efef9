/** The quote decision of the trader: gates, edge and tick rounding. */
module QuoteDecision {
  import opened Rounding
  import opened Wrappers

  datatype Side = Buy | Sell | Unknown

  /** What a decision looks at. `theo` is the value given or computed from the surface, if any. */
  datatype Input = Input(
    hasSurface: bool, theo: Option<real>, marketBid: Option<real>, marketAsk: Option<real>,
    bidSize: Option<int>, askSize: Option<int>, minBboSize: int,
    fitForward: Option<real>, currentForward: Option<real>, maxDriftTicks: int,
    minEdgeTicks: int, tickSize: real)

  datatype Reason =
    | NoVolSurface | TheoUnavailable | OneSidedOrDark | ThinBook | ForwardDrift(drift: real)
    | TargetNonpositive | WouldCrossAsk(target: real) | WouldCrossBid(target: real) | UnknownSide

  datatype Decision = Skip(reason: Reason) | Place(price: real)

  predicate IsLive(p: Option<real>) {
    p.Some? && p.value > 0.0
  }

  function Quantize(target: real, tick: real): (price: real)
    requires tick > 0.0
  {
    Grid(HalfEven(target / tick), tick)
  }

  function Edge(i: Input): (e: real) {
    Grid(i.minEdgeTicks, i.tickSize)
  }

  function Decide(i: Input, side: Side): (d: Decision)
    requires i.tickSize > 0.0
  {
    if !i.hasSurface then Skip(NoVolSurface)
    else if i.theo.None? then Skip(TheoUnavailable)
    else if !IsLive(i.marketBid) || !IsLive(i.marketAsk) then Skip(OneSidedOrDark)
    else if i.bidSize.Some? && i.askSize.Some?
         && (i.bidSize.value < i.minBboSize || i.askSize.value < i.minBboSize) then
      Skip(ThinBook)
    else if i.fitForward.Some? && i.currentForward.Some?
         && Abs(i.currentForward.value - i.fitForward.value) > Grid(i.maxDriftTicks, i.tickSize) then
      Skip(ForwardDrift(Abs(i.currentForward.value - i.fitForward.value)))
    else (match side
          case Buy =>
            var target := i.theo.value - Edge(i);
            if target <= 0.0 then Skip(TargetNonpositive)
            else if target >= i.marketAsk.value then Skip(WouldCrossAsk(target))
            else Place(Quantize(target, i.tickSize))
          case Sell =>
            var target := i.theo.value + Edge(i);
            if target <= i.marketBid.value then Skip(WouldCrossBid(target))
            else Place(Quantize(target, i.tickSize))
          case Unknown => Skip(UnknownSide))
  }

  /** Rounding moves a price by at most half a tick. */
  lemma QuantizeNear(target: real, tick: real)
    requires tick > 0.0
    ensures Abs(target - Quantize(target, tick)) <= 0.5 * tick
  {
    var q := Quotient(target, tick);
    HalfStep(q, HalfEven(q), tick);
  }

  /** And never across a price on the grid. */
  lemma QuantizeStays(target: real, k: int, tick: real)
    requires tick > 0.0
    ensures target <= Grid(k, tick) ==> Quantize(target, tick) <= Grid(k, tick)
    ensures target >= Grid(k, tick) ==> Quantize(target, tick) >= Grid(k, tick)
  {
    QuotientOrder(target, k, tick);
    HalfEvenBounded(target / tick, k);
    GridOrder(HalfEven(target / tick), k, tick);
    GridOrder(k, HalfEven(target / tick), tick);
  }

  lemma EdgeIs(i: Input)
    ensures Edge(i) == (i.minEdgeTicks as real) * i.tickSize
  {
  }

  /** A placed buy is on the grid, the edge below theo give or take half a tick, and not above an ask
      that is on the grid. */
  lemma BuyIsSafe(i: Input, k: int)
    requires i.tickSize > 0.0 && Decide(i, Buy).Place?
    ensures i.theo.Some? && i.marketAsk.Some?
    ensures var p := Decide(i, Buy).price;
            && (exists n: int :: p == Grid(n, i.tickSize))
            && -0.5 * i.tickSize <= i.theo.value - (i.minEdgeTicks as real) * i.tickSize - p <= 0.5 * i.tickSize
            && (i.marketAsk.value == Grid(k, i.tickSize) ==> p <= i.marketAsk.value)
  {
    EdgeIs(i);
    hide Edge;
    var target := i.theo.value - Edge(i);
    assert Decide(i, Buy) == Place(Quantize(target, i.tickSize));
    assert Quantize(target, i.tickSize) == Grid(HalfEven(target / i.tickSize), i.tickSize);
    QuantizeNear(target, i.tickSize);
    QuantizeStays(target, k, i.tickSize);
  }

  /** The same of a placed sell, above theo and against the bid. */
  lemma SellIsSafe(i: Input, k: int)
    requires i.tickSize > 0.0 && Decide(i, Sell).Place?
    ensures i.theo.Some? && i.marketBid.Some?
    ensures var p := Decide(i, Sell).price;
            && (exists n: int :: p == Grid(n, i.tickSize))
            && -0.5 * i.tickSize <= p - i.theo.value - (i.minEdgeTicks as real) * i.tickSize <= 0.5 * i.tickSize
            && (i.marketBid.value == Grid(k, i.tickSize) ==> p >= i.marketBid.value)
  {
    EdgeIs(i);
    hide Edge;
    var target := i.theo.value + Edge(i);
    assert Decide(i, Sell) == Place(Quantize(target, i.tickSize));
    assert Quantize(target, i.tickSize) == Grid(HalfEven(target / i.tickSize), i.tickSize);
    QuantizeNear(target, i.tickSize);
    QuantizeStays(target, k, i.tickSize);
  }

  /** When both sides place for one theo, they are at least twice the edge less one tick apart, so
      with an edge of a tick or more the sell is above the buy. */
  lemma BothSidesSpaced(i: Input)
    requires i.tickSize > 0.0 && Decide(i, Buy).Place? && Decide(i, Sell).Place?
    ensures Decide(i, Sell).price - Decide(i, Buy).price >= 2.0 * ((i.minEdgeTicks as real) * i.tickSize) - i.tickSize
    ensures i.minEdgeTicks >= 1 ==> Decide(i, Sell).price - Decide(i, Buy).price >= i.tickSize
  {
    hide Decide;
    BuyIsSafe(i, 0);
    SellIsSafe(i, 0);
    GridOrder(1, i.minEdgeTicks, i.tickSize);
    GridIs(1, i.tickSize);
    GridIs(i.minEdgeTicks, i.tickSize);
    hide Grid;
  }

  lemma GridIs(k: int, tick: real)
    ensures Grid(k, tick) == (k as real) * tick
  {
  }

  /** A buy is placed at zero exactly when its target is at most half a tick. */
  lemma PlacedAtZeroIff(i: Input)
    requires i.tickSize > 0.0 && Decide(i, Buy).Place?
    ensures i.theo.Some?
    ensures Decide(i, Buy).price == 0.0 <==>
            i.theo.value - (i.minEdgeTicks as real) * i.tickSize <= 0.5 * i.tickSize
  {
    EdgeIs(i);
    hide Edge;
    var target := i.theo.value - Edge(i);
    var q := Quotient(target, i.tickSize);
    assert q > 0.0 by { PositiveQuotient(target, q, i.tickSize); }
    HalfBound(target, q, i.tickSize);
    var n := HalfEven(q);
    assert n == 0 <==> q <= 0.5;
    GridOrder(0, n, i.tickSize);
    GridOrder(n, 0, i.tickSize);
    assert Grid(0, i.tickSize) == 0.0;
  }

  lemma PositiveQuotient(x: real, q: real, tick: real)
    requires tick > 0.0 && x > 0.0 && q * tick == x
    ensures q > 0.0
  {
  }

  lemma HalfBound(x: real, q: real, tick: real)
    requires tick > 0.0 && q * tick == x
    ensures q <= 0.5 <==> x <= 0.5 * tick
  {
    assert (q - 0.5) * tick == x - 0.5 * tick;
    if q > 0.5 { assert (q - 0.5) * tick > 0.0; }
    if q <= 0.5 { assert (0.5 - q) * tick >= 0.0; }
  }

  // ---- Passing the other side ----

  /** Every gate that does not look at the price is open. */
  ghost predicate GatesOpen(i: Input) {
    && i.hasSurface
    && i.marketBid.Some? && i.marketBid.value > 0.0 && i.marketAsk.Some? && i.marketAsk.value > 0.0
    && (i.bidSize.Some? && i.askSize.Some? ==> i.bidSize.value >= i.minBboSize && i.askSize.value >= i.minBboSize)
    && (i.fitForward.Some? && i.currentForward.Some? ==>
          var (drift, most) := (i.currentForward.value - i.fitForward.value, (i.maxDriftTicks as real) * i.tickSize);
          -most <= drift <= most)
  }

  /** A quote is placed exactly when every gate is open and its target lies on the right side. */
  lemma PlacesIff(i: Input, side: Side)
    requires i.tickSize > 0.0
    ensures Decide(i, side).Place? <==>
            && i.theo.Some? && GatesOpen(i)
            && var edge := (i.minEdgeTicks as real) * i.tickSize;
               || (side.Buy? && 0.0 < i.theo.value - edge < i.marketAsk.value)
               || (side.Sell? && i.theo.value + edge > i.marketBid.value)
  {
    EdgeIs(i);
    GridIs(i.maxDriftTicks, i.tickSize);
    hide Edge, Grid, Quantize;
  }

  /** A refusal names a gate that is really shut, and a crossing one the target it refused. */
  lemma SkipIsHonest(i: Input, side: Side)
    requires i.tickSize > 0.0 && Decide(i, side).Skip?
    ensures var edge, most := (i.minEdgeTicks as real) * i.tickSize, (i.maxDriftTicks as real) * i.tickSize;
            match Decide(i, side).reason
            case NoVolSurface => !i.hasSurface
            case TheoUnavailable => i.hasSurface && i.theo.None?
            case OneSidedOrDark => !(&& i.marketBid.Some? && i.marketBid.value > 0.0
                                     && i.marketAsk.Some? && i.marketAsk.value > 0.0)
            case ThinBook => && i.bidSize.Some? && i.askSize.Some?
                             && (i.bidSize.value < i.minBboSize || i.askSize.value < i.minBboSize)
            case ForwardDrift(drift) =>
              && i.fitForward.Some? && i.currentForward.Some? && drift > most
              && (|| drift == i.currentForward.value - i.fitForward.value
                  || drift == i.fitForward.value - i.currentForward.value)
            case TargetNonpositive => side.Buy? && i.theo.Some? && i.theo.value - edge <= 0.0
            case WouldCrossAsk(target) =>
              && side.Buy? && i.theo.Some? && i.marketAsk.Some?
              && target == i.theo.value - edge && target >= i.marketAsk.value
            case WouldCrossBid(target) =>
              && side.Sell? && i.theo.Some? && i.marketBid.Some?
              && target == i.theo.value + edge && target <= i.marketBid.value
            case UnknownSide => side.Unknown?
  {
    EdgeIs(i);
    GridIs(i.maxDriftTicks, i.tickSize);
    hide Edge, Grid;
  }

  lemma PriceOf(i: Input)
    requires i.tickSize > 0.0
    ensures Decide(i, Buy).Place? ==>
              i.theo.Some? && Decide(i, Buy).price == Quantize(i.theo.value - Edge(i), i.tickSize)
    ensures Decide(i, Sell).Place? ==>
              i.theo.Some? && Decide(i, Sell).price == Quantize(i.theo.value + Edge(i), i.tickSize)
  {
    hide Edge, Grid, Quantize;
  }

  lemma DecisionWith(i: Input, theo: real)
    requires i.tickSize > 0.0
    ensures var (j, e) := (i.(theo := Some(theo)), Edge(i));
            && (Decide(j, Buy).Place? <==> GatesOpen(i) && 0.0 < theo - e < i.marketAsk.value)
            && (Decide(j, Buy).Place? ==> Decide(j, Buy).price == Quantize(theo - e, i.tickSize))
            && (Decide(j, Sell).Place? <==> GatesOpen(i) && theo + e > i.marketBid.value)
            && (Decide(j, Sell).Place? ==> Decide(j, Sell).price == Quantize(theo + e, i.tickSize))
  {
    var j := i.(theo := Some(theo));
    assert Edge(j) == Edge(i);
    assert GatesOpen(j) <==> GatesOpen(i);
    EdgeIs(j);
    PriceOf(j);
    hide Decide, GatesOpen, Edge, Quantize;
    PlacesIff(j, Buy);
    PlacesIff(j, Sell);
  }

  /** The grid point at or below a price, and the one at or above it. */
  function GridBelow(x: real, tick: real): (k: int)
    requires tick > 0.0
    ensures Grid(k, tick) <= x < Grid(k + 1, tick)
  {
    var k := (x / tick).Floor;
    FloorOnGrid(x, tick);
    k
  }

  lemma FloorOnGrid(x: real, tick: real)
    requires tick > 0.0
    ensures Grid((x / tick).Floor, tick) <= x < Grid((x / tick).Floor + 1, tick)
  {
    var q := Quotient(x, tick);
    FloorScaled(q, q.Floor, tick);
  }

  lemma FloorScaled(q: real, k: int, tick: real)
    requires tick > 0.0 && k as real <= q < k as real + 1.0
    ensures Grid(k, tick) <= q * tick < Grid(k + 1, tick)
  {
    var d := q - k as real;
    ScaledOrder(0.0, d, tick);
    ScaledOrder(d, 1.0, tick);
    assert q * tick == Grid(k, tick) + d * tick;
    assert Grid(k + 1, tick) == Grid(k, tick) + tick;
    assert d * tick < tick;
    assert q * tick < Grid(k + 1, tick);
  }

  function GridAbove(x: real, tick: real): (k: int)
    requires tick > 0.0
    ensures Grid(k - 1, tick) < x <= Grid(k, tick)
  {
    GridNegates(GridBelow(-x, tick), tick);
    GridNegates(GridBelow(-x, tick) + 1, tick);
    -GridBelow(-x, tick)
  }

  lemma GridNegates(k: int, tick: real)
    ensures Grid(-k, tick) == -Grid(k, tick)
  {
  }

  lemma ScaledOrder(a: real, b: real, tick: real)
    requires tick > 0.0
    ensures a <= b <==> a * tick <= b * tick
    ensures a < b <==> a * tick < b * tick
  {
    assert (b - a) * tick == b * tick - a * tick;
    if a < b { assert (b - a) * tick > 0.0; }
    if a > b { assert (a - b) * tick > 0.0; }
  }

  lemma WithinHalf(q: real, k: int, tick: real)
    requires tick > 0.0 && Grid(k, tick) - 0.5 * tick < q * tick < Grid(k, tick) + 0.5 * tick
    ensures -0.5 < q - k as real < 0.5
  {
    var d := q - k as real;
    assert d * tick == q * tick - Grid(k, tick);
    ScaledOrder(-0.5, d, tick);
    ScaledOrder(d, 0.5, tick);
  }

  /** A target is rounded to the grid point it is nearest to, on whichever side of it. */
  lemma QuantizeOf(target: real, k: int, tick: real)
    requires tick > 0.0 && Grid(k, tick) - 0.5 * tick < target < Grid(k, tick) + 0.5 * tick
    ensures Quantize(target, tick) == Grid(k, tick)
  {
    var q := Quotient(target, tick);
    WithinHalf(q, k, tick);
    HalfEvenNear(q, k);
  }

  lemma QuantizeMonotone(a: real, b: real, tick: real)
    requires tick > 0.0 && a <= b
    ensures Quantize(a, tick) <= Quantize(b, tick)
  {
    var p := Quotient(a, tick);
    var q := Quotient(b, tick);
    ScaledOrder(p, q, tick);
    HalfEvenMonotone(p, q);
    GridOrder(HalfEven(p), HalfEven(q), tick);
  }

  /** Below the middle of a tick nothing rounds past its lower end; above the lower half something
      does, and mirrored. */
  lemma RoundsPastUpIff(limit: real, tick: real)
    requires tick > 0.0 && limit > 0.0
    ensures (forall target: real :: 0.0 < target < limit ==> Quantize(target, tick) <= limit)
            <==> limit <= Grid(GridBelow(limit, tick), tick) + 0.5 * tick
  {
    var m := GridBelow(limit, tick);
    var low := Grid(m, tick);
    if limit <= low + 0.5 * tick {
      forall target: real | 0.0 < target < limit ensures Quantize(target, tick) <= limit {
        if target > low {
          QuantizeOf(target, m, tick);
        } else {
          QuantizeStays(target, m, tick);
        }
      }
    } else {
      var target := (low + 0.5 * tick + limit) / 2.0;
      assert Grid(m + 1, tick) == low + tick;
      QuantizeOf(target, m + 1, tick);
      GridBelowPositive(limit, tick);
      assert 0.0 < target < limit && Quantize(target, tick) > limit;
    }
  }

  lemma GridBelowPositive(x: real, tick: real)
    requires tick > 0.0 && x > 0.0
    ensures Grid(GridBelow(x, tick), tick) >= 0.0
  {
    var m := GridBelow(x, tick);
    if m < 0 {
      GridOrder(m + 1, 0, tick);
    }
    GridOrder(0, m, tick);
  }

  lemma RoundsPastDownIff(limit: real, tick: real)
    requires tick > 0.0
    ensures (forall target: real :: target > limit ==> Quantize(target, tick) >= limit)
            <==> limit >= Grid(GridAbove(limit, tick), tick) - 0.5 * tick
  {
    var m := GridAbove(limit, tick);
    var high := Grid(m, tick);
    if limit >= high - 0.5 * tick {
      forall target: real | target > limit ensures Quantize(target, tick) >= limit {
        if target < high {
          QuantizeOf(target, m, tick);
        } else {
          QuantizeStays(target, m, tick);
        }
      }
    } else {
      var target := (high - 0.5 * tick + limit) / 2.0;
      assert Grid(m - 1, tick) == high - tick;
      QuantizeOf(target, m - 1, tick);
      assert target > limit && Quantize(target, tick) < limit;
    }
  }

  /** For a given market, every buy that any theo leads to stays at or below the ask if and only if
      the ask is at most half a tick above the grid point under it. */
  lemma BuyNeverPassesIff(i: Input)
    requires i.tickSize > 0.0 && GatesOpen(i)
    ensures (forall theo: real ::
               var d := Decide(i.(theo := Some(theo)), Buy); d.Place? ==> d.price <= i.marketAsk.value)
            <==> i.marketAsk.value <= Grid(GridBelow(i.marketAsk.value, i.tickSize), i.tickSize) + 0.5 * i.tickSize
  {
    var ask, tick := i.marketAsk.value, i.tickSize;
    RoundsPastUpIff(ask, tick);
    forall theo: real
      ensures var d := Decide(i.(theo := Some(theo)), Buy);
              && (d.Place? <==> 0.0 < theo - Edge(i) < ask)
              && (d.Place? ==> d.price == Quantize(theo - Edge(i), tick))
    {
      DecisionWith(i, theo);
    }
    if target: real :| 0.0 < target < ask && Quantize(target, tick) > ask {
      var d := Decide(i.(theo := Some(target + Edge(i))), Buy);
      assert d.Place? && d.price > ask;
    }
  }

  /** And every sell stays at or above the bid if and only if the bid is at most half a tick below
      the grid point over it. */
  lemma SellNeverPassesIff(i: Input)
    requires i.tickSize > 0.0 && GatesOpen(i)
    ensures (forall theo: real ::
               var d := Decide(i.(theo := Some(theo)), Sell); d.Place? ==> d.price >= i.marketBid.value)
            <==> i.marketBid.value >= Grid(GridAbove(i.marketBid.value, i.tickSize), i.tickSize) - 0.5 * i.tickSize
  {
    var bid, tick := i.marketBid.value, i.tickSize;
    RoundsPastDownIff(bid, tick);
    forall theo: real
      ensures var d := Decide(i.(theo := Some(theo)), Sell);
              && (d.Place? <==> theo + Edge(i) > bid)
              && (d.Place? ==> d.price == Quantize(theo + Edge(i), tick))
    {
      DecisionWith(i, theo);
    }
    if target: real :| target > bid && Quantize(target, tick) < bid {
      var d := Decide(i.(theo := Some(target - Edge(i))), Sell);
      assert d.Place? && d.price < bid;
    }
  }

  /** An ask that is off the grid can be passed: rounding comes after the crossing test. */
  lemma OffGridAskCanBePassed()
    ensures exists i: Input :: i.tickSize > 0.0 && i.minEdgeTicks >= 1 && Decide(i, Buy).Place?
              && i.marketAsk.Some? && Decide(i, Buy).price > i.marketAsk.value
  {
    var i := Input(true, Some(2.8), Some(1.0), Some(1.9), None, None, 1, None, None, 200, 1, 1.0);
    assert Edge(i) == 1.0;
    assert 2.8 - 1.0 == 1.8;
    assert 1.8 / 1.0 == 1.8;
    assert HalfEven(1.8) == 2;
    assert Decide(i, Buy) == Place(2.0);
  }

  /** A wider edge never brings a quote nearer to theo, never newly crosses, and never unplaces a sell;
      it unplaces a buy only by taking its target to zero. */
  lemma WiderEdgeRetreats(i: Input, wider: int)
    requires i.tickSize > 0.0 && i.theo.Some? && wider >= i.minEdgeTicks
    ensures var j := i.(minEdgeTicks := wider);
            && (Decide(i, Sell).Place? ==> Decide(j, Sell).Place? && Decide(j, Sell).price >= Decide(i, Sell).price)
            && (Decide(i, Buy).Place? ==> if i.theo.value - Edge(j) > 0.0
                                          then Decide(j, Buy).Place? && Decide(j, Buy).price <= Decide(i, Buy).price
                                          else Decide(j, Buy) == Skip(TargetNonpositive))
  {
    var j, theo := i.(minEdgeTicks := wider), i.theo.value;
    GridOrder(i.minEdgeTicks, wider, i.tickSize);
    DecisionWith(i, theo);
    DecisionWith(j, theo);
    assert i.(theo := Some(theo)) == i && j.(theo := Some(theo)) == j;
    QuantizeMonotone(theo + Edge(i), theo + Edge(j), i.tickSize);
    QuantizeMonotone(theo - Edge(j), theo - Edge(i), i.tickSize);
  }

  /** Within one market, a higher theo never quotes lower on either side. */
  lemma QuotesFollowTheo(i: Input, lower: real, higher: real, side: Side)
    requires i.tickSize > 0.0 && lower <= higher
    ensures var (d, e) := (Decide(i.(theo := Some(lower)), side), Decide(i.(theo := Some(higher)), side));
            && (d.Place? && e.Place? ==> d.price <= e.price)
            && (side.Buy? && d.Place? && !e.Place? ==> e.reason.WouldCrossAsk?)
            && (side.Sell? && d.Place? ==> e.Place?)
  {
    DecisionWith(i, lower);
    DecisionWith(i, higher);
    QuantizeMonotone(lower - Edge(i), higher - Edge(i), i.tickSize);
    QuantizeMonotone(lower + Edge(i), higher + Edge(i), i.tickSize);
  }
}
