/** Hedge orchestration of one product: rebalance decisions, scheduling and fill confirmation. */
module Hedging {
  import opened ExecDedup
  import opened HedgeAccounting
  import opened Rounding
  import opened Wrappers

  datatype Mode = Observe | Execute

  datatype Config = Config(
    multiplier: real, mode: Mode, tolerance: real, rebalanceOnFill: bool, cadenceSec: real,
    flattenOnHaltEnabled: bool)

  datatype Action =
    | Idle
    | Place(isBuy: bool, qty: nat, effectivePre: real, target: int)
    | LogOnly(isBuy: bool, qty: nat, forward: real)

  // ---- Decisions ----

  /** Hedge quantity a rebalance aims for. */
  function Target(netDelta: real): (q: int) {
    ToI32(-HalfAway(netDelta))
  }

  /** The rebalance decision. The tolerance override is consulted by one of two tests that agree. */
  function Decide(cfg: Config, qty: int, netDelta: real, toleranceOverride: Option<real>, forward: real): (a: Action) {
    var effective := netDelta + (qty as real);
    var target := ToI32(-HalfAway(effective - (qty as real)));
    var change := target - qty;
    if toleranceOverride.None? && Magnitude(change) < 1 then Idle
    else if change == 0 then Idle
    else if cfg.mode.Observe? then LogOnly(change > 0, Magnitude(change), forward)
    else Place(change > 0, Magnitude(change), effective, target)
  }

  function DecideGated(cfg: Config, qty: int, netDelta: real, forward: real): (a: Action) {
    if Abs(netDelta + (qty as real)) <= cfg.tolerance then Idle
    else Decide(cfg, qty, netDelta, None, forward)
  }

  /** The accounting effect of an action that is carried out in full at a price. */
  function Carry(h: Hedge, a: Action, price: real, multiplier: real): (g: Hedge) {
    match a
    case Idle => h
    case Place(isBuy, qty, _, _) => Apply(h, Fill(isBuy, qty, price), multiplier)
    case LogOnly(isBuy, qty, _) => Apply(h, Fill(isBuy, qty, price), multiplier)
  }

  function FlattenDecision(cfg: Config, qty: int, forward: real): (a: Action) {
    if !cfg.flattenOnHaltEnabled || qty == 0 then Idle
    else if cfg.mode.Observe? then LogOnly(qty < 0, Magnitude(qty), forward)
    else Place(qty < 0, Magnitude(qty), qty as real, 0)
  }

  // ---- Scheduling ----

  datatype Clock = Clock(last: nat, drain: nat)

  datatype Attempt = NoAttempt | Ordinary | Priority | Clearing

  function ElapsedSec(last: nat, now: nat): (sec: real) {
    ((if now >= last then now - last else 0) as real) / 1000000000.0
  }

  function Tick(c: Clock, now: nat, cadenceSec: real): (r: (Clock, Attempt)) {
    if c.drain > 0 && now < c.drain then (c.(last := now), Priority)
    else if c.drain > 0 then (Clock(now, 0), Clearing)
    else if ElapsedSec(c.last, now) < cadenceSec then (c, NoAttempt)
    else (c.(last := now), Ordinary)
  }

  function Request(c: Clock, until: nat): (d: Clock) {
    c.(drain := if until > c.drain then until else c.drain)
  }

  // ---- The manager ----

  class HedgeManager {
    const cfg: Config
    const state: HedgeState
    var contract: Option<int>
    var lastPeriodicNs: nat
    var priorityDrainUntilNs: nat
    var processed: set<string>
    var processedOrder: seq<string>

    constructor (cfg: Config)
      ensures this.cfg == cfg && fresh(state) && BookState() == EMPTY_BOOK && ClockState() == Clock(0, 0)
      ensures contract == None
    {
      this.cfg := cfg;
      state := new HedgeState();
      contract, lastPeriodicNs, priorityDrainUntilNs, processed, processedOrder := None, 0, 0, {}, [];
    }

    function BookState(): (b: Book)
      reads this, state
    {
      Book(Seen(processed, processedOrder), state.State())
    }

    function ClockState(): (c: Clock)
      reads this
    {
      Clock(lastPeriodicNs, priorityDrainUntilNs)
    }

    /** In observe mode the decided trade is applied at once at the given forward. */
    method Rebalance(netDelta: real, toleranceOverride: Option<real>, forward: real) returns (a: Action)
      modifies state
      ensures a == Decide(cfg, old(state.hedgeQty), netDelta, toleranceOverride, forward)
      ensures state.State() == if cfg.mode.Observe? then Carry(old(state.State()), a, forward, cfg.multiplier)
                               else old(state.State())
    {
      var effective := netDelta + (state.hedgeQty as real);
      var target := ToI32(-HalfAway(effective - (state.hedgeQty as real)));
      var change := target - state.hedgeQty;
      if toleranceOverride.None? && Magnitude(change) < 1 {
        return Idle;
      }
      if change == 0 {
        return Idle;
      }
      var isBuy, qty := change > 0, Magnitude(change);
      match cfg.mode {
        case Observe =>
          state.ApplyFill(isBuy, qty, forward, cfg.multiplier);
          a := LogOnly(isBuy, qty, forward);
        case Execute =>
          a := Place(isBuy, qty, effective, target);
      }
    }

    method MaybeRebalance(netDelta: real, forward: real) returns (a: Action)
      modifies state
      ensures a == DecideGated(cfg, old(state.hedgeQty), netDelta, forward)
      ensures state.State() == if cfg.mode.Observe? then Carry(old(state.State()), a, forward, cfg.multiplier)
                               else old(state.State())
    {
      var effective := netDelta + (state.hedgeQty as real);
      if Abs(effective) <= cfg.tolerance {
        return Idle;
      }
      a := Rebalance(netDelta, None, forward);
    }

    /** An option fill rebalances at a literal forward of 6.0. */
    method RebalanceOnFill(netDelta: real) returns (a: Action)
      modifies state
      ensures a == if cfg.rebalanceOnFill then DecideGated(cfg, old(state.hedgeQty), netDelta, 6.0) else Idle
      ensures state.State() == if cfg.mode.Observe? then Carry(old(state.State()), a, 6.0, cfg.multiplier)
                               else old(state.State())
    {
      if !cfg.rebalanceOnFill {
        return Idle;
      }
      a := MaybeRebalance(netDelta, 6.0);
    }

    method RebalancePeriodic(netDelta: real, forward: real, now: nat) returns (a: Action)
      modifies this`lastPeriodicNs, this`priorityDrainUntilNs, state
      ensures ClockState() == Tick(old(ClockState()), now, cfg.cadenceSec).0
      ensures a == if Tick(old(ClockState()), now, cfg.cadenceSec).1.NoAttempt? then Idle
                   else DecideGated(cfg, old(state.hedgeQty), netDelta, forward)
      ensures state.State() == if cfg.mode.Observe? then Carry(old(state.State()), a, forward, cfg.multiplier)
                               else old(state.State())
    {
      var priorityActive := priorityDrainUntilNs > 0 && now < priorityDrainUntilNs;
      if priorityActive {
        lastPeriodicNs := now;
        a := MaybeRebalance(netDelta, forward);
        return;
      }
      if priorityDrainUntilNs > 0 && now >= priorityDrainUntilNs {
        priorityDrainUntilNs := 0;
        lastPeriodicNs := now;
        a := MaybeRebalance(netDelta, forward);
        return;
      }
      if ElapsedSec(lastPeriodicNs, now) < cfg.cadenceSec {
        return Idle;
      }
      lastPeriodicNs := now;
      a := MaybeRebalance(netDelta, forward);
    }

    method RequestPriorityDrain(until: nat)
      modifies this`priorityDrainUntilNs
      ensures ClockState() == Request(old(ClockState()), until)
    {
      var prev := priorityDrainUntilNs;
      priorityDrainUntilNs := if until > prev then until else prev;
    }

    method ForceFlat(netDelta: real, forward: real) returns (a: Action)
      modifies state
      ensures a == Decide(cfg, old(state.hedgeQty), netDelta, Some(0.0), forward)
      ensures state.State() == if cfg.mode.Observe? then Carry(old(state.State()), a, forward, cfg.multiplier)
                               else old(state.State())
    {
      a := Rebalance(netDelta, Some(0.0), forward);
    }

    method FlattenOnHalt(forward: real) returns (a: Action)
      ensures a == FlattenDecision(cfg, state.hedgeQty, forward)
    {
      if !cfg.flattenOnHaltEnabled {
        return Idle;
      }
      if state.hedgeQty == 0 {
        return Idle;
      }
      var closeQty, isBuy := Magnitude(state.hedgeQty), state.hedgeQty < 0;
      a := match cfg.mode
           case Observe => LogOnly(isBuy, closeQty, forward)
           case Execute => Place(isBuy, closeQty, state.hedgeQty as real, 0);
    }

    /** A confirmed fill counts in execute mode, for the hedge contract, with a new non-empty id. */
    method ApplyBrokerFill(instrument: int, x: Exec) returns (updated: bool)
      modifies this`processed, this`processedOrder, state
      ensures var relevant := cfg.mode.Execute? && contract == Some(instrument) && x.execId != "";
              && updated == (relevant && x.execId !in old(processed))
              && BookState() == if relevant then StepBook(old(BookState()), x, PROCESSED_EXEC_IDS_MAX, cfg.multiplier)
                           else old(BookState())
    {
      if cfg.mode != Execute {
        return false;
      }
      if contract.None? || contract.value != instrument {
        return false;
      }
      if x.execId == "" || x.execId in processed {
        return false;
      }
      if |processedOrder| >= PROCESSED_EXEC_IDS_MAX {
        processed := processed - {processedOrder[0]};
        processedOrder := processedOrder[1..];
      }
      processed := processed + {x.execId};
      processedOrder := processedOrder + [x.execId];
      state.ApplyFill(x.fill.isBuy, x.fill.qty, x.fill.price, cfg.multiplier);
      updated := true;
    }

    method ReconcileWithPosition(brokerQty: int, brokerAvgCost: real) returns (changed: bool)
      modifies state
      ensures changed == (brokerQty != old(state.hedgeQty))
      ensures state.State() == if changed then old(state.State()).(qty := brokerQty, avgEntry := brokerAvgCost)
                               else old(state.State())
    {
      if brokerQty == state.hedgeQty {
        return false;
      }
      state.Replace(brokerQty, brokerAvgCost);
      changed := true;
    }
  }

  // ---- Rebalancing settles ----

  /** Decisions depend on the option delta alone, and carrying one out reaches its target. */
  lemma CarryReachesTarget(
      cfg: Config, h: Hedge, netDelta: real, toleranceOverride: Option<real>, forward: real, price: real)
    ensures var a := Decide(cfg, h.qty, netDelta, toleranceOverride, forward);
            Carry(h, a, price, cfg.multiplier).qty == Target(netDelta)
  {
    assert netDelta + (h.qty as real) - (h.qty as real) == netDelta;
  }

  /** After any rebalance that is carried out in full, the residual is at most one half exactly when
      the option delta is within the reach of a 32-bit quantity. */
  lemma RebalanceResidualIff(
      cfg: Config, h: Hedge, netDelta: real, toleranceOverride: Option<real>, forward: real, price: real)
    ensures var g := Carry(h, Decide(cfg, h.qty, netDelta, toleranceOverride, forward), price, cfg.multiplier);
            Abs(netDelta + (g.qty as real)) <= 0.5
            <==> -(I32_MAX as real) - 0.5 <= netDelta <= -(I32_MIN as real) + 0.5
  {
    CarryReachesTarget(cfg, h, netDelta, toleranceOverride, forward, price);
  }

  /** And the next rebalance at the same delta is idle, whatever the tolerance and the override. */
  lemma RebalanceSettles(
      cfg: Config, h: Hedge, netDelta: real, first: Option<real>, second: Option<real>,
      forward: real, price: real, later: real)
    ensures var g := Carry(h, Decide(cfg, h.qty, netDelta, first, forward), price, cfg.multiplier);
            && Decide(cfg, g.qty, netDelta, second, later) == Idle
            && (forall c: Config :: DecideGated(c, g.qty, netDelta, later) == Idle)
  {
    CarryReachesTarget(cfg, h, netDelta, first, forward, price);
    var g := Carry(h, Decide(cfg, h.qty, netDelta, first, forward), price, cfg.multiplier);
    assert netDelta + (g.qty as real) - (g.qty as real) == netDelta;
  }

  /** The gate leaves at most the larger of the tolerance and one half. */
  lemma GatedResidual(cfg: Config, h: Hedge, netDelta: real, forward: real, price: real)
    requires -(I32_MAX as real) - 0.5 <= netDelta <= -(I32_MIN as real) + 0.5
    ensures var g := Carry(h, DecideGated(cfg, h.qty, netDelta, forward), price, cfg.multiplier);
            Abs(netDelta + (g.qty as real)) <= if cfg.tolerance > 0.5 then cfg.tolerance else 0.5
  {
    RebalanceResidualIff(cfg, h, netDelta, None, forward, price);
  }

  /** A trade of this many contracts on this side. */
  function Signed(isBuy: bool, qty: nat): (n: int) {
    if isBuy then qty else -(qty as int)
  }

  ghost predicate WithinReach(netDelta: real) {
    -2147483647.5 <= netDelta <= 2147483648.5
  }

  ghost predicate NearZero(x: real) {
    -0.5 <= x <= 0.5
  }

  /** In execute mode a rebalance is idle or places an order, in observe mode it is idle or only logs;
      either way it trades from the hedge to a target that leaves at most half a delta, and it is idle
      only when the hedge is already such a target. */
  lemma DecisionMeans(cfg: Config, qty: int, netDelta: real, toleranceOverride: Option<real>, forward: real)
    ensures match Decide(cfg, qty, netDelta, toleranceOverride, forward)
            case Idle => WithinReach(netDelta) ==> NearZero(netDelta + qty as real)
            case Place(isBuy, n, pre, target) =>
              && cfg.mode.Execute? && n > 0 && pre == netDelta + qty as real && target == qty + Signed(isBuy, n)
              && (WithinReach(netDelta) ==> NearZero(netDelta + target as real))
            case LogOnly(isBuy, n, at) =>
              && cfg.mode.Observe? && n > 0 && at == forward
              && (WithinReach(netDelta) ==> NearZero(netDelta + (qty + Signed(isBuy, n)) as real))
  {
    var effective := netDelta + qty as real;
    assert effective - qty as real == netDelta;
  }

  /** The gate holds a rebalance back exactly when the effective delta is within the tolerance. */
  lemma GateMeans(cfg: Config, qty: int, netDelta: real, forward: real)
    ensures DecideGated(cfg, qty, netDelta, forward) ==
            if -cfg.tolerance <= netDelta + qty as real <= cfg.tolerance then Idle
            else Decide(cfg, qty, netDelta, None, forward)
  {
  }

  /** A halt leaves a flat or disabled hedge alone, and otherwise trades exactly the opposite of it: an
      order in execute mode, a log entry at the given forward in observe mode. */
  lemma FlattenMeans(cfg: Config, qty: int, forward: real)
    ensures match FlattenDecision(cfg, qty, forward)
            case Idle => !cfg.flattenOnHaltEnabled || qty == 0
            case Place(isBuy, n, pre, target) =>
              cfg.mode.Execute? && n > 0 && Signed(isBuy, n) == -qty && pre == qty as real && target == 0
            case LogOnly(isBuy, n, at) =>
              cfg.mode.Observe? && n > 0 && Signed(isBuy, n) == -qty && at == forward
    ensures FlattenDecision(cfg, qty, forward) == Idle <==> !cfg.flattenOnHaltEnabled || qty == 0
  {
  }

  /** Carrying an action out at a price is a trade at that price: it adds to the hedge's value at any
      mark the signed quantity times mark less price times multiplier. */
  lemma CarryTrades(h: Hedge, a: Action, price: real, mark: real, multiplier: real)
    ensures var n := match a
                     case Idle => 0
                     case Place(isBuy, qty, _, _) => Signed(isBuy, qty)
                     case LogOnly(isBuy, qty, _) => Signed(isBuy, qty);
            var g := Carry(h, a, price, multiplier);
            && g.qty == h.qty + n
            && Value(g, mark, multiplier) == Value(h, mark, multiplier) + (n as real) * (mark - price) * multiplier
  {
    hide Apply, Value;
    match a
    case Idle => NoTrade(mark - price, multiplier);
    case Place(isBuy, qty, _, _) => TradeAdds(h, isBuy, qty, price, mark, multiplier);
    case LogOnly(isBuy, qty, _) => TradeAdds(h, isBuy, qty, price, mark, multiplier);
  }

  lemma NoTrade(x: real, multiplier: real)
    ensures (0 as real) * x * multiplier == 0.0
  {
  }

  lemma TradeAdds(h: Hedge, isBuy: bool, qty: nat, price: real, mark: real, multiplier: real)
    ensures var g := Apply(h, Fill(isBuy, qty, price), multiplier);
            && g.qty == h.qty + Signed(isBuy, qty)
            && Value(g, mark, multiplier) ==
               Value(h, mark, multiplier) + (Signed(isBuy, qty) as real) * (mark - price) * multiplier
  {
    hide Apply, Value;
    FillConserves(h, Fill(isBuy, qty, price), mark, multiplier);
  }

  lemma RoundExactIff(x: real, n: int)
    ensures x + (n as real) == 0.0 ==> x == x.Floor as real && n == -x.Floor
    ensures x == x.Floor as real ==> HalfAway(x) == x.Floor
  {
    if x + (n as real) == 0.0 {
      assert x == (-n) as real;
    }
  }

  /** The delta-kill override changes no decision, and brings net delta to exactly zero only when
      the option delta is a whole number within reach. */
  lemma ForceFlatIsRebalance(cfg: Config, h: Hedge, netDelta: real, forward: real, price: real)
    ensures Decide(cfg, h.qty, netDelta, Some(0.0), forward) == Decide(cfg, h.qty, netDelta, None, forward)
    ensures var g := Carry(h, Decide(cfg, h.qty, netDelta, Some(0.0), forward), price, cfg.multiplier);
            netDelta + (g.qty as real) == 0.0
            <==> netDelta == netDelta.Floor as real && -I32_MAX <= netDelta.Floor <= -I32_MIN
  {
    CarryReachesTarget(cfg, h, netDelta, Some(0.0), forward, price);
    RoundExactIff(netDelta, Target(netDelta));
  }

  /** Flattening on a halt closes the hedge when it is placed and filled; in observe mode nothing is
      recorded, so the same decision comes back for ever. */
  lemma FlattenCloses(cfg: Config, h: Hedge, forward: real, price: real)
    requires cfg.flattenOnHaltEnabled
    ensures var a := FlattenDecision(cfg, h.qty, forward);
            && Carry(h, a, price, cfg.multiplier).qty == 0
            && (cfg.mode.Execute? ==> FlattenDecision(cfg, Carry(h, a, price, cfg.multiplier).qty, forward) == Idle)
            && (h.qty != 0 ==> a != Idle)
  {
  }

  // ---- Scheduling over runs ----

  datatype Call = Periodic(now: nat) | Drain(until: nat)

  /** The clock, every attempt with its time, and how many drains began and were cleared. */
  datatype Schedule = Schedule(clock: Clock, attempts: seq<(nat, Attempt)>, begun: nat, cleared: nat)

  function StepSchedule(s: Schedule, c: Call, cadenceSec: real): (t: Schedule) {
    match c
    case Periodic(now) =>
      var (clock, attempt) := Tick(s.clock, now, cadenceSec);
      Schedule(clock, if attempt.NoAttempt? then s.attempts else s.attempts + [(now, attempt)], s.begun,
               s.cleared + if attempt.Clearing? then 1 else 0)
    case Drain(until) =>
      s.(clock := Request(s.clock, until), begun := s.begun + if s.clock.drain == 0 && until > 0 then 1 else 0)
  }

  function RunSchedule(calls: seq<Call>, cadenceSec: real): (s: Schedule) {
    if calls == [] then Schedule(Clock(0, 0), [], 0, 0)
    else StepSchedule(RunSchedule(calls[..|calls| - 1], cadenceSec), calls[|calls| - 1], cadenceSec)
  }

  /** Periodic calls happen at non-decreasing times. */
  ghost predicate Timed(calls: seq<Call>) {
    forall i, j :: 0 <= i < j < |calls| && calls[i].Periodic? && calls[j].Periodic? ==> calls[i].now <= calls[j].now
  }

  /** Each ordinary attempt is at least one cadence after every earlier attempt. */
  ghost predicate Spaced(attempts: seq<(nat, Attempt)>, cadenceSec: real) {
    forall i, j :: 0 <= i < j < |attempts| && attempts[j].1.Ordinary? ==>
      attempts[i].0 <= attempts[j].0 && ElapsedSec(attempts[i].0, attempts[j].0) >= cadenceSec
  }

  /** A drain request is honoured: until its deadline passes it is either still the live deadline or
      covered by a later one. */
  ghost predicate Live(s: Schedule, calls: seq<Call>) {
    forall i :: 0 <= i < |calls| && calls[i].Drain? && calls[i].until > 0 ==>
      || calls[i].until <= s.clock.drain
      || (exists j :: i < j < |calls| && calls[j].Periodic? && calls[i].until <= calls[j].now)
  }

  ghost predicate ScheduleInv(s: Schedule, calls: seq<Call>, cadenceSec: real) {
    && Spaced(s.attempts, cadenceSec)
    && (forall a :: a in s.attempts ==> a.0 <= s.clock.last)
    && (forall a :: a in s.attempts ==> exists j :: 0 <= j < |calls| && calls[j] == Periodic(a.0))
    && (s.clock.last > 0 ==> exists j :: 0 <= j < |calls| && calls[j] == Periodic(s.clock.last))
    && s.begun == s.cleared + (if s.clock.drain > 0 then 1 else 0)
    && Live(s, calls)
  }

  lemma ElapsedMonotone(a: nat, b: nat, now: nat)
    requires a <= b <= now
    ensures ElapsedSec(a, now) >= ElapsedSec(b, now)
  {
  }

  lemma SpacedSnoc(attempts: seq<(nat, Attempt)>, now: nat, attempt: Attempt, last: nat, cadenceSec: real)
    requires Spaced(attempts, cadenceSec) && (forall a :: a in attempts ==> a.0 <= last) && last <= now
    requires attempt.Ordinary? ==> ElapsedSec(last, now) >= cadenceSec
    ensures Spaced(attempts + [(now, attempt)], cadenceSec)
  {
    var longer := attempts + [(now, attempt)];
    forall i, j | 0 <= i < j < |longer| && longer[j].1.Ordinary?
      ensures longer[i].0 <= longer[j].0 && ElapsedSec(longer[i].0, longer[j].0) >= cadenceSec
    {
      if j == |attempts| {
        assert attempts[i] in attempts;
        ElapsedMonotone(attempts[i].0, last, now);
      }
    }
  }

  lemma LiveSnoc(s: Schedule, calls: seq<Call>, c: Call, cadenceSec: real)
    requires Live(s, calls)
    ensures Live(StepSchedule(s, c, cadenceSec), calls + [c])
  {
    var t, longer := StepSchedule(s, c, cadenceSec), calls + [c];
    forall i | 0 <= i < |longer| && longer[i].Drain? && longer[i].until > 0
      ensures || longer[i].until <= t.clock.drain
              || (exists j :: i < j < |longer| && longer[j].Periodic? && longer[i].until <= longer[j].now)
    {
      if i < |calls| && longer[i].until > t.clock.drain {
        if longer[i].until <= s.clock.drain {
          assert longer[|calls|].Periodic? && longer[i].until <= longer[|calls|].now;
        } else {
          var j :| i < j < |calls| && calls[j].Periodic? && calls[i].until <= calls[j].now;
          assert longer[j] == calls[j];
        }
      }
    }
  }

  lemma TimedPrefix(init: seq<Call>, c: Call)
    requires Timed(init + [c])
    ensures Timed(init)
  {
    var calls := init + [c];
    forall i, j | 0 <= i < j < |init| && init[i].Periodic? && init[j].Periodic? ensures init[i].now <= init[j].now {
      assert calls[i] == init[i] && calls[j] == init[j];
    }
  }

  lemma StepTimes(s: Schedule, init: seq<Call>, c: Call, cadenceSec: real)
    requires ScheduleInv(s, init, cadenceSec) && Timed(init + [c])
    ensures var t := StepSchedule(s, c, cadenceSec);
            && Spaced(t.attempts, cadenceSec)
            && (forall a :: a in t.attempts ==> a.0 <= t.clock.last)
            && (forall a :: a in t.attempts ==> exists j :: 0 <= j < |init + [c]| && (init + [c])[j] == Periodic(a.0))
            && (t.clock.last > 0 ==> exists j :: 0 <= j < |init + [c]| && (init + [c])[j] == Periodic(t.clock.last))
  {
    var t, calls := StepSchedule(s, c, cadenceSec), init + [c];
    assert calls[|init|] == c;
    forall a | a in s.attempts ensures exists j :: 0 <= j < |calls| && calls[j] == Periodic(a.0) {
      var j :| 0 <= j < |init| && init[j] == Periodic(a.0);
      assert calls[j] == init[j];
    }
    if s.clock.last > 0 {
      var j :| 0 <= j < |init| && init[j] == Periodic(s.clock.last);
      assert calls[j] == Periodic(s.clock.last);
    }
    if c.Periodic? {
      assert s.clock.last <= c.now;
      SpacedSnoc(s.attempts, c.now, Tick(s.clock, c.now, cadenceSec).1, s.clock.last, cadenceSec);
    }
  }

  lemma StepCounts(s: Schedule, c: Call, cadenceSec: real)
    requires s.begun == s.cleared + (if s.clock.drain > 0 then 1 else 0)
    ensures var t := StepSchedule(s, c, cadenceSec);
            t.begun == t.cleared + (if t.clock.drain > 0 then 1 else 0)
  {
  }

  lemma StepKeepsSchedule(s: Schedule, init: seq<Call>, c: Call, cadenceSec: real)
    requires ScheduleInv(s, init, cadenceSec) && Timed(init + [c])
    ensures ScheduleInv(StepSchedule(s, c, cadenceSec), init + [c], cadenceSec)
  {
    hide Timed, Spaced, Live, StepSchedule;
    LiveSnoc(s, init, c, cadenceSec);
    StepTimes(s, init, c, cadenceSec);
    StepCounts(s, c, cadenceSec);
  }

  /** Over every run with non-decreasing time. */
  lemma {:induction false} EveryRunIsScheduled(calls: seq<Call>, cadenceSec: real)
    requires Timed(calls)
    ensures ScheduleInv(RunSchedule(calls, cadenceSec), calls, cadenceSec)
  {
    if calls != [] {
      hide ScheduleInv, Timed;
      var init, c := calls[..|calls| - 1], calls[|calls| - 1];
      assert calls == init + [c];
      TimedPrefix(init, c);
      EveryRunIsScheduled(init, cadenceSec);
      StepKeepsSchedule(RunSchedule(init, cadenceSec), init, c, cadenceSec);
    }
  }

  function LastAttempt(attempts: seq<(nat, Attempt)>): (ns: nat) {
    if attempts == [] then 0 else attempts[|attempts| - 1].0
  }

  lemma {:induction false} ClockIsLastAttempt(calls: seq<Call>, cadenceSec: real)
    ensures var s := RunSchedule(calls, cadenceSec); s.clock.last == LastAttempt(s.attempts)
  {
    if calls != [] {
      ClockIsLastAttempt(calls[..|calls| - 1], cadenceSec);
    }
  }

  lemma NsAsSeconds(ns: nat, cadenceSec: real)
    ensures (ns as real) / 1000000000.0 < cadenceSec <==> (ns as real) < cadenceSec * 1000000000.0
  {
  }

  /** Over every run with non-decreasing time a periodic call attempts, at its own time, exactly when a
      drain is pending or a cadence has passed since the last attempt (since zero, if there was none);
      and without a pending drain the attempt is an ordinary one. */
  lemma AttemptsIff(calls: seq<Call>, now: nat, cadenceSec: real)
    requires Timed(calls + [Periodic(now)])
    ensures var s, t := RunSchedule(calls, cadenceSec), RunSchedule(calls + [Periodic(now)], cadenceSec);
            var due := ((now - LastAttempt(s.attempts)) as real) >= cadenceSec * 1000000000.0;
            && LastAttempt(s.attempts) <= now
            && (if s.clock.drain == 0 then t.attempts == s.attempts + if due then [(now, Ordinary)] else []
                else t.attempts == s.attempts + [(now, if now < s.clock.drain then Priority else Clearing)])
  {
    var longer := calls + [Periodic(now)];
    assert longer[..|calls|] == calls;
    TimedPrefix(calls, Periodic(now));
    EveryRunIsScheduled(calls, cadenceSec);
    ClockIsLastAttempt(calls, cadenceSec);
    var s := RunSchedule(calls, cadenceSec);
    if s.clock.last > 0 {
      var j :| 0 <= j < |calls| && calls[j] == Periodic(s.clock.last);
      assert longer[j] == calls[j] && longer[|calls|] == Periodic(now);
    }
    NsAsSeconds(now - s.clock.last, cadenceSec);
  }

  /** A drain request raises the deadline to its own, never lowers it, and changes nothing else. */
  lemma RequestRaises(c: Clock, until: nat)
    ensures var d := Request(c, until);
            d.last == c.last && d.drain >= c.drain && d.drain >= until && d.drain in {c.drain, until}
  {
  }

  /** Every periodic call made before the deadline of an earlier drain request attempts. */
  lemma UrgentUntilDeadline(calls: seq<Call>, i: nat, now: nat, cadenceSec: real)
    requires Timed(calls + [Periodic(now)])
    requires i < |calls| && calls[i].Drain? && now < calls[i].until
    ensures Tick(RunSchedule(calls, cadenceSec).clock, now, cadenceSec).1 == Priority
  {
    var longer := calls + [Periodic(now)];
    assert Timed(calls) by {
      forall a, b | 0 <= a < b < |calls| && calls[a].Periodic? && calls[b].Periodic?
        ensures calls[a].now <= calls[b].now
      {
        assert longer[a] == calls[a] && longer[b] == calls[b];
      }
    }
    EveryRunIsScheduled(calls, cadenceSec);
    forall j | i < j < |calls| && calls[j].Periodic? ensures calls[j].now < calls[i].until {
      assert longer[j] == calls[j] && longer[|calls|] == Periodic(now);
    }
  }

  /** The deadline never moves earlier while it is set: one call keeps it, raises it, or clears it,
      and only a periodic call at or past it clears it. */
  lemma DeadlineOnlyRises(s: Schedule, c: Call, cadenceSec: real)
    ensures var t := StepSchedule(s, c, cadenceSec);
            t.clock.drain >= s.clock.drain ||
            (t.clock.drain == 0 && c.Periodic? && c.now >= s.clock.drain && t.cleared == s.cleared + 1)
  {
  }
}
