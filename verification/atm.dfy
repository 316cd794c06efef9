/** The at-the-money strike and the subscription window around it. */
module AtmTracking {
  import opened Rounding
  import opened Wrappers

  datatype StrikeWindow = StrikeWindow(low: real, high: real)

  datatype Tracker = Tracker(atmStrike: real, window: StrikeWindow)

  const START := Tracker(0.0, StrikeWindow(0.0, 0.0))

  function Nearest(underlying: real, increment: real): (strike: real)
    requires increment > 0.0
  {
    Grid(HalfAway(underlying / increment), increment)
  }

  function Centred(strike: real, increment: real, width: int): (t: Tracker) {
    Tracker(strike, StrikeWindow(strike - Grid(width, increment), strike + Grid(width, increment)))
  }

  /** Whole strikes of drift, truncated and saturated. */
  function DriftTicks(newAtm: real, atm: real, increment: real): (n: int)
    requires increment > 0.0
  {
    ToI32(Abs((newAtm - atm) / increment).Floor)
  }

  function Recenter(t: Tracker, underlying: real, increment: real, width: int, threshold: int)
    : (r: (Tracker, Option<StrikeWindow>))
  {
    if underlying <= 0.0 || increment <= 0.0 then (t, None)
    else
      var atm := Nearest(underlying, increment);
      var c := Centred(atm, increment, width);
      if t.atmStrike != 0.0 && DriftTicks(atm, t.atmStrike, increment) < threshold then (t, None)
      else (c, Some(c.window))
  }

  class AtmTracker {
    var atmStrike: real
    var window: StrikeWindow

    function State(): (t: Tracker)
      reads this
    {
      Tracker(atmStrike, window)
    }

    constructor ()
      ensures State() == START
    {
      atmStrike, window := 0.0, StrikeWindow(0.0, 0.0);
    }

    method MaybeRecenter(underlying: real, increment: real, width: i32, threshold: i32)
      returns (w: Option<StrikeWindow>)
      modifies this
      ensures (State(), w) == Recenter(old(State()), underlying, increment, width, threshold)
    {
      if underlying <= 0.0 || increment <= 0.0 {
        return None;
      }
      var newAtm := Nearest(underlying, increment);
      if atmStrike == 0.0 {
        atmStrike := newAtm;
        window := Centred(newAtm, increment, width).window;
        return Some(window);
      }
      var drift := DriftTicks(newAtm, atmStrike, increment);
      if drift < threshold {
        return None;
      }
      atmStrike := newAtm;
      window := Centred(newAtm, increment, width).window;
      w := Some(window);
    }

    method Contains(strike: real) returns (inside: bool)
      ensures inside == InWindow(strike, window)
    {
      inside := strike >= window.low && strike <= window.high;
    }
  }

  predicate InWindow(strike: real, w: StrikeWindow) {
    w.low <= strike <= w.high
  }

  // ---- Drift ----

  /** The nearest strike is within half an increment. */
  lemma NearestIsNear(underlying: real, increment: real)
    requires increment > 0.0
    ensures Abs(underlying - Nearest(underlying, increment)) <= 0.5 * increment
  {
    var q := Quotient(underlying, increment);
    HalfStep(q, HalfAway(q), increment);
  }

  lemma FloorOfAbs(d: int)
    ensures Abs(d as real).Floor == if d < 0 then -d else d
  {
    if d < 0 {
      assert Abs(d as real) == (-d) as real;
    }
  }

  /** Drift between two grid strikes is their exact distance in increments. */
  lemma DriftOfGrid(n: int, k: int, increment: real)
    requires increment > 0.0
    ensures DriftTicks(Grid(n, increment), Grid(k, increment), increment) == ToI32(if n < k then k - n else n - k)
  {
    GridDifference(n, k, increment);
    GridTicks(n - k, increment);
    FloorOfAbs(n - k);
  }

  // ---- Runs ----

  function Run(underlyings: seq<real>, increment: real, width: int, threshold: int): (t: Tracker) {
    if underlyings == [] then START
    else Recenter(Run(underlyings[..|underlyings| - 1], increment, width, threshold),
                  underlyings[|underlyings| - 1], increment, width, threshold).0
  }

  /** On the grid, and either untouched or with the window centred on it. */
  ghost predicate OnGrid(t: Tracker, k: int, increment: real, width: int) {
    t.atmStrike == Grid(k, increment) && (t == START || t == Centred(t.atmStrike, increment, width))
  }

  lemma {:induction false} RunOnGrid(underlyings: seq<real>, increment: real, width: i32, threshold: i32)
    returns (k: int)
    requires increment > 0.0
    ensures OnGrid(Run(underlyings, increment, width, threshold), k, increment, width)
  {
    if underlyings == [] {
      k := 0;
    } else {
      var before := Run(underlyings[..|underlyings| - 1], increment, width, threshold);
      k := RunOnGrid(underlyings[..|underlyings| - 1], increment, width, threshold);
      var u := underlyings[|underlyings| - 1];
      if Run(underlyings, increment, width, threshold) != before {
        k := HalfAway(u / increment);
      }
    }
  }

  /** One valid call from a state on the grid: the strike stays on the grid, the window is centred on
      it, and the strike nearest the underlying is less than the threshold away. */
  lemma CallCentres(t: Tracker, j: int, u: real, increment: real, width: i32, threshold: i32) returns (k: int)
    requires increment > 0.0 && threshold >= 1 && u > 0.0 && OnGrid(t, j, increment, width)
    ensures var r := Recenter(t, u, increment, width, threshold).0;
            && r.atmStrike == Grid(k, increment) && r == Centred(r.atmStrike, increment, width)
    ensures var n := HalfAway(u / increment); n - k < threshold && k - n < threshold
  {
    var n := HalfAway(u / increment);
    DriftOfGrid(n, j, increment);
    k := if t.atmStrike != 0.0 && DriftTicks(Grid(n, increment), t.atmStrike, increment) < threshold then j else n;
  }

  /** After every valid call of a run: the strike is on the grid, the window is centred on it, and
      the underlying is within (threshold - 1/2) increments of it. */
  lemma EveryCallCentres(underlyings: seq<real>, u: real, increment: real, width: i32, threshold: i32) returns (k: int)
    requires increment > 0.0 && threshold >= 1 && u > 0.0
    ensures var t := Run(underlyings + [u], increment, width, threshold);
            && t.atmStrike == Grid(k, increment)
            && t == Centred(t.atmStrike, increment, width)
            && t.window.low == t.atmStrike - (width as real) * increment
            && t.window.high == t.atmStrike + (width as real) * increment
            && Abs(u - t.atmStrike) <= ((threshold as real) - 0.5) * increment
            && Abs(Nearest(u, increment) - t.atmStrike) <= Grid(threshold - 1, increment)
  {
    assert (underlyings + [u])[..|underlyings|] == underlyings;
    var j := RunOnGrid(underlyings, increment, width, threshold);
    k := CallCentres(Run(underlyings, increment, width, threshold), j, u, increment, width, threshold);
    var n := HalfAway(u / increment);
    NearestIsNear(u, increment);
    GridDifference(n, k, increment);
    GridDifference(k, n, increment);
    GridOrder(n - k, threshold - 1, increment);
    GridOrder(k - n, threshold - 1, increment);
    AddHalf(threshold, increment);
  }

  /** A call changes nothing exactly when its input is not valid, or the strike is set and the nearest
      one is still less than the threshold away; otherwise the nearest strike becomes the strike. */
  lemma RecentersIff(t: Tracker, j: int, u: real, increment: real, width: i32, threshold: i32)
    requires increment > 0.0 ==> OnGrid(t, j, increment, width)
    ensures var (r, w) := Recenter(t, u, increment, width, threshold);
            && (w.None? ==> r == t)
            && (w.Some? ==> w.value == r.window && u > 0.0 && increment > 0.0 && r.atmStrike == Nearest(u, increment))
            && (w.None? <==> || u <= 0.0 || increment <= 0.0
                             || (t.atmStrike != 0.0
                                 && var n := HalfAway(u / increment); n - j < threshold && j - n < threshold))
  {
    if u > 0.0 && increment > 0.0 {
      DriftOfGrid(HalfAway(u / increment), j, increment);
    }
  }

  lemma AddHalf(threshold: int, increment: real)
    ensures Grid(threshold - 1, increment) + 0.5 * increment == ((threshold as real) - 0.5) * increment
  {
  }

  function After(underlyings: seq<real>, u: real, increment: real, width: int, threshold: int): (t: Tracker) {
    Run(underlyings + [u], increment, width, threshold)
  }

  /** The strike nearest the underlying is in the window after every valid call of every run, if and
      only if the width is at least the threshold less one. */
  lemma NearestSubscribedIff(increment: real, width: i32, threshold: i32)
    requires increment > 0.0 && threshold >= 1 && width >= 0
    ensures (forall underlyings: seq<real>, u: real :: u > 0.0 ==>
               InWindow(Nearest(u, increment), After(underlyings, u, increment, width, threshold).window))
            <==> width >= threshold - 1
  {
    if width >= threshold - 1 {
      forall underlyings: seq<real>, u: real | u > 0.0
        ensures InWindow(Nearest(u, increment), After(underlyings, u, increment, width, threshold).window)
      {
        var k := EveryCallCentres(underlyings, u, increment, width, threshold);
        GridOrder(threshold - 1, width, increment);
      }
    } else {
      NarrowWindowMisses(increment, width, threshold);
    }
  }

  lemma NearestOnGrid(n: int, increment: real)
    requires increment > 0.0 && n > 0
    ensures Grid(n, increment) > 0.0 && Nearest(Grid(n, increment), increment) == Grid(n, increment)
  {
    GridTicks(n, increment);
    GridOrder(0, n, increment);
  }

  /** Start one strike up, then drift just short of the threshold. */
  lemma NarrowWindowMisses(increment: real, width: i32, threshold: i32)
    requires increment > 0.0 && 0 <= width < threshold - 1
    ensures var (u, v) := (Grid(1, increment), Grid(threshold, increment));
            v > 0.0 && !InWindow(Nearest(v, increment), After([u], v, increment, width, threshold).window)
  {
    var u, v := Grid(1, increment), Grid(threshold, increment);
    NearestOnGrid(1, increment);
    NearestOnGrid(threshold, increment);
    assert [u][..0] == [] && ([u] + [v])[..1] == [u];
    assert Run([u], increment, width, threshold) == Centred(u, increment, width);
    DriftOfGrid(threshold, 1, increment);
    GridOrder(1 + width, threshold, increment);
    GridDifference(1 + width, 1, increment);
  }
}
