/** Quantity, average entry and realized P&L of one product's hedge, over exact reals. */
module HedgeAccounting {
  import opened Sums

  /** The accounting state as a value. */
  datatype Hedge = Hedge(qty: int, avgEntry: real, realized: real)

  datatype Fill = Fill(isBuy: bool, qty: nat, price: real)

  const FLAT := Hedge(0, 0.0, 0.0)

  function Magnitude(x: int): (r: nat) {
    if x < 0 then -x else x
  }

  /** Signed quantity of a fill. */
  function Effect(f: Fill): (e: int) {
    if f.isBuy then f.qty else -(f.qty as int)
  }

  /** P&L of closing `size` contracts of a position of the given sign. */
  function CloseProfit(h: Hedge, size: nat, price: real, multiplier: real): (pnl: real) {
    (if h.qty > 0 then 1.0 else -1.0) * (price - h.avgEntry) * (size as real) * multiplier
  }

  /** Size-weighted average of two prices, known by the notional it stands for. */
  function Average(a: real, q: int, p: real, e: int): (avg: real)
    requires q + e != 0
    ensures avg * ((q + e) as real) == a * (q as real) + p * (e as real)
  {
    (a * (q as real) + p * (e as real)) / ((q + e) as real)
  }

  /** The four cases of a fill: to flat, same direction, partial reverse, flip. */
  function Apply(h: Hedge, f: Fill, multiplier: real): (g: Hedge)
    ensures g.qty == h.qty + Effect(f)
  {
    var effect := Effect(f);
    var newQty := h.qty + effect;
    if newQty == 0 then
      Hedge(0, 0.0, h.realized + CloseProfit(h, Magnitude(h.qty), f.price, multiplier))
    else if (h.qty >= 0 && effect >= 0) || (h.qty <= 0 && effect <= 0) then
      Hedge(newQty, Average(h.avgEntry, h.qty, f.price, effect), h.realized)
    else if Magnitude(effect) < Magnitude(h.qty) then
      Hedge(newQty, h.avgEntry, h.realized + CloseProfit(h, Magnitude(effect), f.price, multiplier))
    else
      Hedge(newQty, f.price, h.realized + CloseProfit(h, Magnitude(h.qty), f.price, multiplier))
  }

  /** Mark-to-market; zero when flat or when the mark is not positive. */
  function Mtm(h: Hedge, mark: real, multiplier: real): (usd: real) {
    if h.qty == 0 || mark <= 0.0 then 0.0
    else (mark - h.avgEntry) * (h.qty as real) * multiplier
  }

  class HedgeState {
    var hedgeQty: int
    var avgEntry: real
    var realizedPnlUsd: real

    function State(): (h: Hedge)
      reads this
    {
      Hedge(hedgeQty, avgEntry, realizedPnlUsd)
    }

    constructor ()
      ensures State() == FLAT
    {
      hedgeQty, avgEntry, realizedPnlUsd := 0, 0.0, 0.0;
    }

    method ApplyFill(isBuy: bool, qty: nat, price: real, multiplier: real)
      modifies this
      ensures State() == Apply(old(State()), Fill(isBuy, qty, price), multiplier)
    {
      var effect: int := if isBuy then qty else -(qty as int);
      var newQty := hedgeQty + effect;
      if newQty == 0 {
        realizedPnlUsd := realizedPnlUsd + CloseProfit(State(), Magnitude(hedgeQty), price, multiplier);
        hedgeQty := 0;
        avgEntry := 0.0;
        return;
      }
      if (hedgeQty >= 0 && effect >= 0) || (hedgeQty <= 0 && effect <= 0) {
        avgEntry := Average(avgEntry, hedgeQty, price, effect);
        hedgeQty := newQty;
        return;
      }
      if Magnitude(effect) < Magnitude(hedgeQty) {
        realizedPnlUsd := realizedPnlUsd + CloseProfit(State(), Magnitude(effect), price, multiplier);
        hedgeQty := newQty;
        return;
      }
      realizedPnlUsd := realizedPnlUsd + CloseProfit(State(), Magnitude(hedgeQty), price, multiplier);
      hedgeQty := newQty;
      avgEntry := price;
    }

    method MtmUsd(mark: real, multiplier: real) returns (usd: real)
      ensures usd == Mtm(State(), mark, multiplier)
    {
      if hedgeQty == 0 || mark <= 0.0 {
        return 0.0;
      }
      usd := (mark - avgEntry) * (hedgeQty as real) * multiplier;
    }

    /** Reconcile to the broker's position; realized P&L stays as it was. */
    method Replace(qty: int, avg: real)
      modifies this
      ensures State() == old(State()).(qty := qty, avgEntry := avg)
    {
      hedgeQty := qty;
      avgEntry := avg;
    }
  }

  // ---- Value conservation ----

  function Run(fills: seq<Fill>, multiplier: real): (h: Hedge) {
    if fills == [] then FLAT
    else Apply(Run(fills[..|fills| - 1], multiplier), fills[|fills| - 1], multiplier)
  }

  /** What one fill is worth at a mark. */
  function Traded(f: Fill, mark: real, multiplier: real): (usd: real) {
    (Effect(f) as real) * (mark - f.price) * multiplier
  }

  /** What the fills alone are worth at a mark, with no position kept at all. */
  function TradedValue(fills: seq<Fill>, mark: real, multiplier: real): (usd: real) {
    Sum((f: Fill) => Traded(f, mark, multiplier), fills)
  }

  /** Value of a state at a mark, without the guard that `Mtm` puts on the mark. */
  function Value(h: Hedge, mark: real, multiplier: real): (usd: real) {
    h.realized + (mark - h.avgEntry) * (h.qty as real) * multiplier
  }

  lemma WeightedAverage(avg: real, q: int, price: real, e: int, mark: real)
    requires q + e != 0
    ensures (mark - Average(avg, q, price, e)) * ((q + e) as real)
            == (mark - avg) * (q as real) + (mark - price) * (e as real)
  {
    var (n, x, y, a) := ((q + e) as real, q as real, e as real, Average(avg, q, price, e));
    assert (mark - a) * n == mark * n - a * n;
    assert mark * n == mark * x + mark * y;
  }

  /** Closing `c` of a position at a price trades the mark's view of them for cash. */
  lemma CloseValue(sign: real, avg: real, q: real, c: real, price: real, mark: real)
    ensures sign * (price - avg) * c + (mark - avg) * (q - sign * c) == (mark - avg) * q - (sign * c) * (mark - price)
  {
    var s := sign * c;
    assert sign * (price - avg) * c == s * (price - avg);
    assert (mark - avg) * (q - s) == (mark - avg) * q - (mark - avg) * s;
    assert s * (price - avg) - (mark - avg) * s == -(s * (mark - price));
  }

  lemma Distribute(a: real, b: real, multiplier: real)
    ensures (a + b) * multiplier == a * multiplier + b * multiplier
  {
  }

  ghost predicate Conserves(h: Hedge, f: Fill, mark: real, multiplier: real) {
    Value(Apply(h, f, multiplier), mark, multiplier) == Value(h, mark, multiplier) + Traded(f, mark, multiplier)
  }

  lemma FlatValue(h: Hedge, mark: real, multiplier: real)
    requires h.qty == 0
    ensures Value(h, mark, multiplier) == h.realized
  {
  }

  /** Closing everything realizes what the mark makes of the position and of the fill. */
  lemma CloseAll(h: Hedge, e: int, price: real, mark: real)
    requires h.qty + e == 0
    ensures (if h.qty > 0 then 1.0 else -1.0) * (price - h.avgEntry) * (Magnitude(h.qty) as real)
            == (mark - h.avgEntry) * (h.qty as real) + (e as real) * (mark - price)
  {
    var q := h.qty as real;
    var sign := if h.qty > 0 then 1.0 else -1.0;
    var c := Magnitude(h.qty) as real;
    assert sign * c == q;
    CloseValue(sign, h.avgEntry, q, c, price, mark);
  }

  lemma FlatConserves(h: Hedge, f: Fill, mark: real, multiplier: real)
    requires h.qty + Effect(f) == 0
    ensures Conserves(h, f, mark, multiplier)
  {
    var g, e := Apply(h, f, multiplier), Effect(f) as real;
    CloseAll(h, Effect(f), f.price, mark);
    Distribute((mark - h.avgEntry) * (h.qty as real), e * (mark - f.price), multiplier);
    assert g.realized == h.realized + (mark - h.avgEntry) * (h.qty as real) * multiplier
                         + e * (mark - f.price) * multiplier;
    FlatValue(g, mark, multiplier);
  }

  lemma SameSideConserves(h: Hedge, f: Fill, mark: real, multiplier: real)
    requires h.qty + Effect(f) != 0
    requires (h.qty >= 0 && Effect(f) >= 0) || (h.qty <= 0 && Effect(f) <= 0)
    ensures Conserves(h, f, mark, multiplier)
  {
    WeightedAverage(h.avgEntry, h.qty, f.price, Effect(f), mark);
    Distribute((mark - h.avgEntry) * (h.qty as real), (mark - f.price) * (Effect(f) as real), multiplier);
  }

  lemma PartialConserves(h: Hedge, f: Fill, mark: real, multiplier: real)
    requires (h.qty > 0 && Effect(f) < 0) || (h.qty < 0 && Effect(f) > 0)
    requires Magnitude(Effect(f)) < Magnitude(h.qty)
    ensures Conserves(h, f, mark, multiplier)
  {
    var e, q, a := Effect(f) as real, h.qty as real, h.avgEntry;
    var sign := if h.qty > 0 then 1.0 else -1.0;
    var c := Magnitude(Effect(f)) as real;
    assert sign * c == -e;
    CloseValue(sign, a, q, c, f.price, mark);
    Distribute(sign * (f.price - a) * c, (mark - a) * (q + e), multiplier);
    Distribute((mark - a) * q, e * (mark - f.price), multiplier);
  }

  lemma FlipConserves(h: Hedge, f: Fill, mark: real, multiplier: real)
    requires (h.qty > 0 && Effect(f) < 0) || (h.qty < 0 && Effect(f) > 0)
    requires Magnitude(Effect(f)) > Magnitude(h.qty)
    ensures Conserves(h, f, mark, multiplier)
  {
    var e, q, a, p := Effect(f) as real, h.qty as real, h.avgEntry, f.price;
    var sign := if h.qty > 0 then 1.0 else -1.0;
    var c := Magnitude(h.qty) as real;
    assert sign * c == q;
    assert sign * (p - a) * c == (p - a) * q;
    assert (p - a) * q + (mark - p) * (q + e) == (mark - a) * q + e * (mark - p) by {
      assert (p - a) * q == p * q - a * q;
      assert (mark - p) * (q + e) == mark * q - p * q + (mark - p) * e;
      assert (mark - a) * q == mark * q - a * q;
    }
    Distribute((p - a) * q, (mark - p) * (q + e), multiplier);
    Distribute((mark - a) * q, e * (mark - p), multiplier);
  }

  /** A fill changes a state's value at any mark by exactly what it traded. */
  lemma FillConserves(h: Hedge, f: Fill, mark: real, multiplier: real)
    ensures Conserves(h, f, mark, multiplier)
  {
    var q, e := h.qty, Effect(f);
    if q + e == 0 {
      FlatConserves(h, f, mark, multiplier);
    } else if (q >= 0 && e >= 0) || (q <= 0 && e <= 0) {
      SameSideConserves(h, f, mark, multiplier);
    } else if Magnitude(e) < Magnitude(q) {
      PartialConserves(h, f, mark, multiplier);
    } else {
      FlipConserves(h, f, mark, multiplier);
    }
  }

  lemma {:induction false} RunConserves(fills: seq<Fill>, mark: real, multiplier: real)
    ensures Value(Run(fills, multiplier), mark, multiplier) == TradedValue(fills, mark, multiplier)
  {
    hide Apply, Traded;
    if fills == [] {
      FlatIsWorthless(mark, multiplier);
    } else {
      var init, last := fills[..|fills| - 1], fills[|fills| - 1];
      RunConserves(init, mark, multiplier);
      FillConserves(Run(init, multiplier), last, mark, multiplier);
    }
  }

  lemma FlatIsWorthless(mark: real, multiplier: real)
    ensures Value(FLAT, mark, multiplier) == 0.0
  {
  }

  /** The guard on the mark matters exactly when the position it ignores is worth something. */
  lemma GuardMattersIff(h: Hedge, mark: real, multiplier: real)
    ensures h.realized + Mtm(h, mark, multiplier) == Value(h, mark, multiplier)
            <==> mark > 0.0 || h.qty == 0 || mark == h.avgEntry || multiplier == 0.0
  {
    if h.qty != 0 && mark != h.avgEntry && multiplier != 0.0 {
      NonzeroProduct(mark - h.avgEntry, h.qty as real, multiplier);
    }
  }

  lemma NonzeroProduct(a: real, b: real, c: real)
    requires a != 0.0 && b != 0.0 && c != 0.0
    ensures a * b * c != 0.0
  {
    assert a * b != 0.0;
  }

  /** For every run of fills from flat, realized P&L plus mark-to-market is what the fills traded,
      exactly when the mark is positive or the guarded-away term is zero anyway. */
  lemma ValueConservedIff(fills: seq<Fill>, mark: real, multiplier: real)
    ensures var h := Run(fills, multiplier);
            h.realized + Mtm(h, mark, multiplier) == TradedValue(fills, mark, multiplier)
            <==> mark > 0.0 || h.qty == 0 || mark == h.avgEntry || multiplier == 0.0
  {
    RunConserves(fills, mark, multiplier);
    GuardMattersIff(Run(fills, multiplier), mark, multiplier);
  }

  /** Total value at a positive mark does not depend on the order of the fills, although average
      entry and realized P&L do. */
  lemma OrderIrrelevant(a: seq<Fill>, b: seq<Fill>, mark: real, multiplier: real)
    requires multiset(a) == multiset(b) && mark > 0.0
    ensures var g, h := Run(a, multiplier), Run(b, multiplier);
            g.realized + Mtm(g, mark, multiplier) == h.realized + Mtm(h, mark, multiplier)
  {
    ValueConservedIff(a, mark, multiplier);
    ValueConservedIff(b, mark, multiplier);
    SumPermutes((f: Fill) => Traded(f, mark, multiplier), a, b);
  }

  // ---- What a fill does ----

  /** Contracts of a position that a signed quantity closes. */
  function Closed(q: int, e: int): (n: nat) {
    if q > 0 && e < 0 then (if -e < q then -e else q)
    else if q < 0 && e > 0 then (if e < -q then e else -q)
    else 0
  }

  lemma Negate(p: real, a: real, n: real, multiplier: real)
    ensures -1.0 * (p - a) * n * multiplier == (a - p) * n * multiplier
    ensures 1.0 * (p - a) * n * multiplier == (p - a) * n * multiplier
  {
    assert -1.0 * (p - a) == a - p;
  }

  lemma NothingClosed(x: real, multiplier: real)
    ensures x * (0 as real) * multiplier == 0.0
  {
  }

  /** A buy adds its quantity and a sell takes it away. */
  lemma FillMoves(h: Hedge, f: Fill, multiplier: real)
    ensures Effect(f) == if f.isBuy then f.qty as int else -(f.qty as int)
    ensures Apply(h, f, multiplier).qty == h.qty + if f.isBuy then f.qty as int else -(f.qty as int)
  {
    hide CloseProfit, Average;
  }

  /** A fill realizes, with the position's sign, the closed quantity times price less entry times
      multiplier, hence nothing unless it is opposite to the position. */
  lemma FillRealizes(h: Hedge, f: Fill, multiplier: real)
    ensures var (q, e) := (h.qty, Effect(f));
            Apply(h, f, multiplier).realized - h.realized ==
            (if q > 0 then f.price - h.avgEntry else h.avgEntry - f.price) * (Closed(q, e) as real) * multiplier
  {
    hide Average;
    var q, e := h.qty, Effect(f);
    if Closed(q, e) == 0 {
      NothingClosed(if q > 0 then f.price - h.avgEntry else h.avgEntry - f.price, multiplier);
      NothingClosed(-1.0 * (f.price - h.avgEntry), multiplier);
    } else {
      Negate(f.price, h.avgEntry, Closed(q, e) as real, multiplier);
    }
  }

  /** The entry is weighted by size on the same side, kept by a partial close, the price after a flip,
      and zero when flat. */
  lemma FillEntry(h: Hedge, f: Fill, multiplier: real)
    ensures var (q, e, g) := (h.qty, Effect(f), Apply(h, f, multiplier));
            && (q + e == 0 ==> g.avgEntry == 0.0)
            && (q + e != 0 && Closed(q, e) == 0 ==>
                  g.avgEntry * ((q + e) as real) == h.avgEntry * (q as real) + f.price * (e as real))
            && (q + e != 0 && Closed(q, e) != 0 ==>
                  g.avgEntry == if (q > 0) == (q + e > 0) then h.avgEntry else f.price)
  {
    hide CloseProfit, Average;
  }

  /** Fills of one side, empty ones allowed. */
  ghost predicate OneSided(fills: seq<Fill>) {
    (forall f :: f in fills && f.qty > 0 ==> f.isBuy) || (forall f :: f in fills && f.qty > 0 ==> !f.isBuy)
  }

  /** What a fill pays, signed as its quantity. */
  function Paid(f: Fill): (usd: real) {
    (if f.isBuy then f.qty as real else -(f.qty as real)) * f.price
  }

  /** The whole position was acquired for this much. */
  predicate HoldsAt(h: Hedge, paid: real) {
    h.avgEntry * (h.qty as real) == paid
  }

  lemma AddingOne(h: Hedge, f: Fill, paid: real, multiplier: real)
    requires Closed(h.qty, Effect(f)) == 0 && (h.qty + Effect(f) == 0 ==> h.qty == 0 && Effect(f) == 0)
    requires HoldsAt(h, paid)
    ensures var g := Apply(h, f, multiplier);
            g.qty == h.qty + Effect(f) && g.realized == h.realized && HoldsAt(g, paid + Paid(f))
  {
    FillRealizes(h, f, multiplier);
    FillEntry(h, f, multiplier);
    FillMoves(h, f, multiplier);
    hide Apply;
    NothingClosed(if h.qty > 0 then f.price - h.avgEntry else h.avgEntry - f.price, multiplier);
    ZeroTimes(h.avgEntry);
    ZeroTimes(f.price);
    ZeroTimes(Apply(h, f, multiplier).avgEntry);
  }

  lemma ZeroTimes(x: real)
    ensures x * (0 as real) == 0.0 && (0 as real) * x == 0.0
  {
  }

  /** Every fill that is not empty is on the position's side. */
  ghost predicate SidesAgree(fills: seq<Fill>, q: int) {
    forall f :: f in fills && f.qty > 0 ==> if f.isBuy then q > 0 else q < 0
  }

  lemma SameSideClosesNothing(init: seq<Fill>, last: Fill, q: int)
    requires OneSided(init + [last])
    requires q == NetQty(init) && SidesAgree(init, q)
    ensures Closed(q, Effect(last)) == 0 && (q + Effect(last) == 0 ==> q == 0 && Effect(last) == 0)
    ensures SidesAgree(init + [last], q + Effect(last))
  {
    SidesOf(init);
    assert last in init + [last];
    forall f | f in init ensures f in init + [last] {
    }
  }

  lemma {:induction false} SidesOf(fills: seq<Fill>)
    ensures NetQty(fills) > 0 ==> exists f :: f in fills && f.qty > 0 && f.isBuy
    ensures NetQty(fills) < 0 ==> exists f :: f in fills && f.qty > 0 && !f.isBuy
  {
    if fills != [] {
      var init, last := fills[..|fills| - 1], fills[|fills| - 1];
      assert fills == init + [last];
      SidesOf(init);
    }
  }

  /** A run that only ever adds to its position realizes nothing, and holds it at what was paid. */
  lemma {:induction false} AddingRealizesNothing(fills: seq<Fill>, multiplier: real)
    requires OneSided(fills)
    ensures var h := Run(fills, multiplier);
            && h.qty == NetQty(fills) && h.realized == 0.0
            && HoldsAt(h, Sum(Paid, fills))
            && SidesAgree(fills, h.qty)
  {
    hide Apply, Paid, Closed, OneSided, HoldsAt, SidesAgree;
    if fills == [] {
      FlatHoldsNothing();
    } else {
      var init, last := fills[..|fills| - 1], fills[|fills| - 1];
      var h := Run(init, multiplier);
      assert fills == init + [last];
      OneSidedPrefix(init, last);
      AddingRealizesNothing(init, multiplier);
      SameSideClosesNothing(init, last, h.qty);
      AddingOne(h, last, Sum(Paid, init), multiplier);
    }
  }

  lemma FlatHoldsNothing()
    ensures HoldsAt(FLAT, 0.0) && SidesAgree([], 0)
  {
  }

  lemma OneSidedPrefix(init: seq<Fill>, last: Fill)
    requires OneSided(init + [last])
    ensures OneSided(init)
  {
    forall f | f in init ensures f in init + [last] {
    }
  }

  // ---- Average entry ----

  function NetQty(fills: seq<Fill>): (q: int) {
    if fills == [] then 0 else NetQty(fills[..|fills| - 1]) + Effect(fills[|fills| - 1])
  }

  /** The fills that built the present position: the one that opened or flipped it, and the later
      ones in its direction. Closing fills and empty fills are not among them. */
  function Building(fills: seq<Fill>): (b: seq<Fill>) {
    if fills == [] then []
    else
      var init, last := fills[..|fills| - 1], fills[|fills| - 1];
      var q, e := NetQty(init), Effect(last);
      if q + e == 0 then []
      else if e == 0 then Building(init)
      else if (q > 0 && e > 0) || (q < 0 && e < 0) then Building(init) + [last]
      else if Magnitude(e) < Magnitude(q) then Building(init)
      else [last]
  }

  lemma SignOfFactor(u: real, n: real)
    requires n > 0.0 && u * n >= 0.0
    ensures u >= 0.0
  {
  }

  lemma WeightedAtLeast(r: real, a: real, x: real, p: real, y: real, lo: real)
    requires x >= 0.0 && y >= 0.0 && x + y > 0.0 && r * (x + y) == a * x + p * y
    requires (x != 0.0 ==> lo <= a) && (y != 0.0 ==> lo <= p)
    ensures lo <= r
  {
    assert (a - lo) * x >= 0.0 && (p - lo) * y >= 0.0;
    assert (r - lo) * (x + y) == (a - lo) * x + (p - lo) * y;
    SignOfFactor(r - lo, x + y);
  }

  /** A weighted average with weights of one sign lies between its two values. */
  lemma AverageBetween(a: real, q: int, p: real, e: int, lo: real, hi: real)
    requires (q >= 0 && e >= 0) || (q <= 0 && e <= 0)
    requires q + e != 0
    requires (q != 0 ==> lo <= a <= hi) && (e != 0 ==> lo <= p <= hi)
    ensures lo <= Average(a, q, p, e) <= hi
  {
    var s: real := if q + e > 0 then 1.0 else -1.0;
    var x, y, r := s * (q as real), s * (e as real), Average(a, q, p, e);
    assert r * (x + y) == s * (r * ((q + e) as real));
    assert a * x + p * y == s * (a * (q as real) + p * (e as real));
    WeightedAtLeast(r, a, x, p, y, lo);
    WeightedAtLeast(-r, -a, x, -p, y, -hi);
  }

  ghost predicate PricesWithin(fills: seq<Fill>, lo: real, hi: real) {
    forall f :: f in fills ==> lo <= f.price <= hi
  }

  /** What one fill does to the average entry, case by case. */
  lemma EntryAfter(h: Hedge, f: Fill, multiplier: real, lo: real, hi: real)
    requires h.qty == 0 || Effect(f) == 0 || lo <= h.avgEntry <= hi
    requires h.qty == 0 || Effect(f) == 0 || (h.qty > 0) != (Effect(f) > 0) || lo <= f.price <= hi
    ensures var (q, e, a) := (h.qty, Effect(f), Apply(h, f, multiplier).avgEntry);
            if q + e == 0 then a == 0.0
            else if e == 0 then a == h.avgEntry
            else if q == 0 then a == f.price
            else if (q > 0) == (e > 0) then lo <= a <= hi
            else if Magnitude(e) < Magnitude(q) then a == h.avgEntry
            else a == f.price
  {
    var q, e := h.qty, Effect(f);
    if q + e != 0 && ((q >= 0 && e >= 0) || (q <= 0 && e <= 0)) {
      if e == 0 {
        AverageBetween(h.avgEntry, q, f.price, e, h.avgEntry, h.avgEntry);
      } else if q == 0 {
        AverageBetween(h.avgEntry, q, f.price, e, f.price, f.price);
      } else {
        AverageBetween(h.avgEntry, q, f.price, e, lo, hi);
      }
    }
  }

  /** Over every run from flat: quantity is the net of the fills; a flat hedge has zero average
      entry; otherwise average entry lies within any bounds on the prices of the fills that built
      the present position, of which there is at least one. */
  lemma {:induction false} AverageEntryBounded(fills: seq<Fill>, multiplier: real, lo: real, hi: real)
    requires PricesWithin(Building(fills), lo, hi)
    ensures var h := Run(fills, multiplier);
            && h.qty == NetQty(fills)
            && (h.qty == 0 ==> h.avgEntry == 0.0 && Building(fills) == [])
            && (h.qty != 0 ==> Building(fills) != [] && lo <= h.avgEntry <= hi)
  {
    if fills != [] {
      var init, last := fills[..|fills| - 1], fills[|fills| - 1];
      var g, e := Run(init, multiplier), Effect(last);
      RunQty(init, multiplier);
      if last in Building(fills) {
        assert lo <= last.price <= hi;
      }
      if g.qty + e != 0 && (g.qty == 0 || e == 0 || (g.qty > 0) == (e > 0) || Magnitude(e) < Magnitude(g.qty)) {
        forall f | f in Building(init) ensures lo <= f.price <= hi {
          assert f in Building(fills);
        }
        AverageEntryBounded(init, multiplier, lo, hi);
        EntryAfter(g, last, multiplier, lo, hi);
      } else {
        EntryAfter(g, last, multiplier, g.avgEntry, g.avgEntry);
      }
    }
  }

  lemma {:induction false} RunQty(fills: seq<Fill>, multiplier: real)
    ensures Run(fills, multiplier).qty == NetQty(fills)
  {
    if fills != [] {
      RunQty(fills[..|fills| - 1], multiplier);
    }
  }

  /** With positive prices the average entry is zero exactly when the hedge is flat. */
  lemma ZeroEntryIffFlat(fills: seq<Fill>, multiplier: real)
    requires forall f :: f in fills ==> f.price > 0.0
    ensures Run(fills, multiplier).avgEntry == 0.0 <==> Run(fills, multiplier).qty == 0
  {
    var b := Building(fills);
    BuildingFromFills(fills);
    if b == [] {
      AverageEntryBounded(fills, multiplier, 0.0, 0.0);
    } else {
      var lo, hi := PriceRange(b);
      AverageEntryBounded(fills, multiplier, lo, hi);
    }
  }

  lemma {:induction false} BuildingFromFills(fills: seq<Fill>)
    ensures forall f :: f in Building(fills) ==> f in fills
  {
    if fills != [] {
      BuildingFromFills(fills[..|fills| - 1]);
    }
  }

  lemma {:induction false} PriceRange(fills: seq<Fill>) returns (lo: real, hi: real)
    requires fills != [] && forall f :: f in fills ==> f.price > 0.0
    ensures lo > 0.0 && PricesWithin(fills, lo, hi)
  {
    if |fills| == 1 {
      lo, hi := fills[0].price, fills[0].price;
    } else {
      lo, hi := PriceRange(fills[1..]);
      lo := if fills[0].price < lo then fills[0].price else lo;
      hi := if fills[0].price > hi then fills[0].price else hi;
    }
  }
}
