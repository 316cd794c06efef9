/** Pre-trade gates, and what they guarantee over a run of accepted fills. */
module Constraint {
  import opened Rounding
  import opened Sums
  import opened Wrappers

  datatype Config = Config(
    capital: real, marginCeilingPct: real, deltaCeiling: real, thetaFloor: real,
    marginKillPct: real, deltaKill: real, thetaKill: real,
    effectiveDeltaGating: bool, marginEscapeEnabled: bool)
  {
    function MarginCeiling(): (m: real) { capital * marginCeilingPct }
    function MarginKill(): (m: real) { capital * marginKillPct }
  }

  /** A proposed fill, with the margins and premiums before and after it. */
  datatype Check = Check(
    deltaPerContract: real, thetaPerContract: real, qty: int, multiplier: real,
    curMargin: real, postMargin: real, curLongPremium: real, postLongPremium: real, hedgeQty: int)

  datatype Reason = MarginKilled | DeltaKilled | ThetaKilled | Margin | Delta | Theta | LongPremium

  datatype Outcome = Accepted | AcceptedMarginEscape | Rejected(reason: Reason)

  /** What the gates limit: margin, effective delta, theta, long premium. */
  datatype Risk = Risk(margin: real, delta: real, theta: real, premium: real)

  function FillDelta(c: Check): (d: real) {
    c.deltaPerContract * (c.qty as real)
  }

  function FillTheta(c: Check): (t: real) {
    c.thetaPerContract * c.multiplier * (c.qty as real)
  }

  /** Risk before the fill; the portfolio contributes the product's option delta and theta. */
  function Current(cfg: Config, optionDelta: real, theta: real, c: Check): (r: Risk) {
    var hedge := (if cfg.effectiveDeltaGating then c.hedgeQty else 0) as real;
    Risk(c.curMargin, optionDelta + hedge, theta, c.curLongPremium)
  }

  function Post(cfg: Config, optionDelta: real, theta: real, c: Check): (r: Risk) {
    var cur := Current(cfg, optionDelta, theta, c);
    Risk(c.postMargin, cur.delta + FillDelta(c), cur.theta + FillTheta(c), c.postLongPremium)
  }

  /** The gates, in order, on the risk before and after. */
  function Evaluate(cfg: Config, cur: Risk, post: Risk): (o: Outcome) {
    var ceiling := cfg.MarginCeiling();
    if post.margin > cfg.MarginKill() then Rejected(MarginKilled)
    else if Abs(post.delta) > cfg.deltaKill then Rejected(DeltaKilled)
    else if cfg.thetaKill < 0.0 && post.theta < cfg.thetaKill then Rejected(ThetaKilled)
    else if cfg.marginEscapeEnabled && cur.margin > ceiling && post.margin < cur.margin then
      if post.premium > cfg.capital && post.premium > cur.premium then Rejected(LongPremium)
      else AcceptedMarginEscape
    else if post.margin > ceiling && cur.margin > ceiling && post.margin >= cur.margin then Rejected(Margin)
    else if post.margin > ceiling && cur.margin <= ceiling then Rejected(Margin)
    else if Abs(post.delta) > cfg.deltaCeiling && Abs(post.delta) >= Abs(cur.delta) then Rejected(Delta)
    else if post.theta < cfg.thetaFloor && post.theta <= cur.theta then Rejected(Theta)
    else if post.premium > cfg.capital && post.premium > cur.premium then Rejected(LongPremium)
    else Accepted
  }

  // ---- The checker ----

  const IBKR_SCALE_LOWER := 0.5
  const IBKR_SCALE_UPPER := 1.25

  datatype Calibration = Calibration(rawSynthetic: real, ibkrActual: real, scale: real, timestampNs: nat)

  class ConstraintChecker {
    const cfg: Config
    var ibkrScale: real
    var lastCalibration: Option<Calibration>

    /** The scale is in its band, and is 1 or the ratio it was last calibrated from. */
    predicate Valid()
      reads this
    {
      && IBKR_SCALE_LOWER <= ibkrScale <= IBKR_SCALE_UPPER
      && match lastCalibration
         case None => ibkrScale == 1.0
         case Some(k) =>
           && k.ibkrActual > 0.0 && k.rawSynthetic > 0.0 && k.scale == ibkrScale
           && (ibkrScale == 1.0 || ibkrScale * k.rawSynthetic == k.ibkrActual)
    }

    constructor (cfg: Config)
      ensures Valid() && this.cfg == cfg && ibkrScale == 1.0
    {
      this.cfg, ibkrScale, lastCalibration := cfg, 1.0, None;
    }

    method Scale(rawSynthetic: real) returns (margin: real)
      requires Valid()
      ensures margin == rawSynthetic * ibkrScale
      ensures rawSynthetic >= 0.0 ==> 0.5 * rawSynthetic <= margin <= 1.25 * rawSynthetic
    {
      margin := rawSynthetic * ibkrScale;
    }

    /** Degenerate inputs change nothing; a ratio outside the band falls back to 1. */
    method UpdateCachedMargin(ibkrActual: real, rawSynthetic: real, timestampNs: nat) returns (scale: real)
      requires Valid()
      modifies this
      ensures Valid() && scale == ibkrScale
      ensures ibkrActual <= 0.0 || rawSynthetic <= 0.0 ==>
                ibkrScale == old(ibkrScale) && lastCalibration == old(lastCalibration)
      ensures ibkrActual > 0.0 && rawSynthetic > 0.0 ==>
                && lastCalibration == Some(Calibration(rawSynthetic, ibkrActual, ibkrScale, timestampNs))
                && (if IBKR_SCALE_LOWER * rawSynthetic <= ibkrActual <= IBKR_SCALE_UPPER * rawSynthetic
                    then ibkrScale * rawSynthetic == ibkrActual else ibkrScale == 1.0)
    {
      if ibkrActual <= 0.0 || rawSynthetic <= 0.0 {
        return ibkrScale;
      }
      var proposed := ibkrActual / rawSynthetic;
      assert proposed * rawSynthetic == ibkrActual;
      QuotientInBand(ibkrActual, rawSynthetic, proposed);
      var bounded := if proposed < IBKR_SCALE_LOWER || proposed > IBKR_SCALE_UPPER then 1.0 else proposed;
      ibkrScale := bounded;
      lastCalibration := Some(Calibration(rawSynthetic, ibkrActual, bounded, timestampNs));
      scale := bounded;
    }

    method CheckFill(optionDelta: real, theta: real, c: Check) returns (o: Outcome)
      ensures o == Evaluate(cfg, Current(cfg, optionDelta, theta, c), Post(cfg, optionDelta, theta, c))
    {
      var cap := cfg.capital;
      var ceiling, kill := cfg.MarginCeiling(), cfg.MarginKill();
      var cur, post := Current(cfg, optionDelta, theta, c), Post(cfg, optionDelta, theta, c);
      if post.margin > kill {
        return Rejected(MarginKilled);
      }
      if Abs(post.delta) > cfg.deltaKill {
        return Rejected(DeltaKilled);
      }
      if cfg.thetaKill < 0.0 && post.theta < cfg.thetaKill {
        return Rejected(ThetaKilled);
      }
      if cfg.marginEscapeEnabled && cur.margin > ceiling && post.margin < cur.margin {
        if post.premium > cap && post.premium > cur.premium {
          return Rejected(LongPremium);
        }
        return AcceptedMarginEscape;
      }
      if post.margin > ceiling {
        if cur.margin > ceiling && post.margin >= cur.margin {
          return Rejected(Margin);
        }
        if cur.margin <= ceiling {
          return Rejected(Margin);
        }
      }
      if Abs(post.delta) > cfg.deltaCeiling {
        if Abs(post.delta) >= Abs(cur.delta) {
          return Rejected(Delta);
        }
      }
      if post.theta < cfg.thetaFloor {
        if post.theta <= cur.theta {
          return Rejected(Theta);
        }
      }
      if post.premium > cap && post.premium > cur.premium {
        return Rejected(LongPremium);
      }
      o := Accepted;
    }
  }

  lemma SameSign(u: real, n: real)
    requires n > 0.0
    ensures u * n >= 0.0 <==> u >= 0.0
  {
  }

  lemma QuotientInBand(x: real, n: real, r: real)
    requires n > 0.0 && r * n == x
    ensures IBKR_SCALE_LOWER <= r <= IBKR_SCALE_UPPER <==> IBKR_SCALE_LOWER * n <= x <= IBKR_SCALE_UPPER * n
  {
    SameSign(r - IBKR_SCALE_LOWER, n);
    SameSign(IBKR_SCALE_UPPER - r, n);
    assert (r - IBKR_SCALE_LOWER) * n == x - IBKR_SCALE_LOWER * n;
    assert (IBKR_SCALE_UPPER - r) * n == IBKR_SCALE_UPPER * n - x;
  }

  // ---- Safety over runs ----

  ghost predicate InsideKills(cfg: Config, r: Risk) {
    && r.margin <= cfg.MarginKill()
    && Abs(r.delta) <= cfg.deltaKill
    && (cfg.thetaKill < 0.0 ==> r.theta >= cfg.thetaKill)
  }

  function Excess(value: real, cap: real): (x: real) {
    if value > cap then value - cap else 0.0
  }

  /** How far beyond each soft cap a state is. */
  datatype Excesses = Excesses(margin: real, delta: real, theta: real, premium: real)

  function ExcessOf(cfg: Config, r: Risk): (x: Excesses) {
    Excesses(Excess(r.margin, cfg.MarginCeiling()), Excess(Abs(r.delta), cfg.deltaCeiling),
             Excess(cfg.thetaFloor, r.theta), Excess(r.premium, cfg.capital))
  }

  /** The next state: a proposal that is accepted becomes the current risk. */
  function StepRisk(cfg: Config, cur: Risk, proposal: Risk): (next: Risk) {
    if Evaluate(cfg, cur, proposal).Rejected? then cur else proposal
  }

  /** One decision: an accepted state is inside every kill limit; no decision raises the margin or
      premium excess; a strict one raises no excess at all; an escape strictly lowers margin. */
  lemma StepIsSafe(cfg: Config, cur: Risk, proposal: Risk)
    ensures var (o, next) := (Evaluate(cfg, cur, proposal), StepRisk(cfg, cur, proposal));
            var (x, y) := (ExcessOf(cfg, cur), ExcessOf(cfg, next));
            && (!o.Rejected? ==> InsideKills(cfg, next))
            && y.margin <= x.margin && y.premium <= x.premium
            && (!o.AcceptedMarginEscape? ==> y.delta <= x.delta && y.theta <= x.theta)
            && (o.AcceptedMarginEscape? ==> cfg.marginEscapeEnabled && next.margin < cur.margin)
  {
  }

  /** The margin is over its ceiling and the fill lowers it. */
  predicate Escapes(cfg: Config, cur: Risk, post: Risk) {
    cfg.marginEscapeEnabled && cur.margin > cfg.MarginCeiling() && post.margin < cur.margin
  }

  /** A soft cap is met after the fill, or the fill brings the state nearer to it. */
  predicate Improves(before: real, after: real) {
    after == 0.0 || after < before
  }

  /** Every verdict in terms of limits and excesses: a kill limit passed or more premium beyond
      capital refuses; otherwise an escape is accepted as such; otherwise a fill is accepted exactly
      when it meets or improves on each of margin, delta and theta. */
  lemma VerdictMeans(cfg: Config, cur: Risk, post: Risk)
    ensures var (o, x, y) := (Evaluate(cfg, cur, post), ExcessOf(cfg, cur), ExcessOf(cfg, post));
            var solvent := InsideKills(cfg, post) && y.premium <= x.premium;
            var better := Improves(x.margin, y.margin) && Improves(x.delta, y.delta) && Improves(x.theta, y.theta);
            && (o == AcceptedMarginEscape <==> solvent && Escapes(cfg, cur, post))
            && (o == Accepted <==> solvent && !Escapes(cfg, cur, post) && better)
            && (o.Rejected? <==> !solvent || !(Escapes(cfg, cur, post) || better))
  {
    ExcessOrder(cur.premium, post.premium, cfg.capital);
    ExcessOrder(cur.margin, post.margin, cfg.MarginCeiling());
    ExcessOrder(Abs(cur.delta), Abs(post.delta), cfg.deltaCeiling);
  }

  lemma ExcessOrder(before: real, after: real, cap: real)
    ensures Excess(after, cap) <= Excess(before, cap) <==> after <= cap || after <= before
    ensures Improves(Excess(before, cap), Excess(after, cap)) <==> after <= cap || after < before
  {
  }

  lemma EvaluateMeans(cfg: Config, cur: Risk, post: Risk, ceiling: real, kill: real)
    requires ceiling == cfg.MarginCeiling() && kill == cfg.MarginKill()
    ensures var o := Evaluate(cfg, cur, post);
            var marginKilled := post.margin > kill;
            var deltaKilled := !(-cfg.deltaKill <= post.delta <= cfg.deltaKill);
            var thetaKilled := cfg.thetaKill < 0.0 && post.theta < cfg.thetaKill;
            var insolvent := post.premium > cfg.capital && post.premium > cur.premium;
            var escape := cfg.marginEscapeEnabled && cur.margin > ceiling && post.margin < cur.margin;
            && (o == Rejected(MarginKilled) <==> marginKilled)
            && (o == Rejected(DeltaKilled) <==> !marginKilled && deltaKilled)
            && (o == Rejected(ThetaKilled) <==> !marginKilled && !deltaKilled && thetaKilled)
            && (o == AcceptedMarginEscape <==> !marginKilled && !deltaKilled && !thetaKilled && escape && !insolvent)
            && (o == Rejected(LongPremium) ==> insolvent)
            && (o == Rejected(Margin) ==> post.margin > ceiling && !escape)
            && (o == Rejected(Delta) ==> !(-cfg.deltaCeiling <= post.delta <= cfg.deltaCeiling) && !escape)
            && (o == Rejected(Theta) ==> post.theta < cfg.thetaFloor && post.theta <= cur.theta && !escape)
            && (o == Accepted <==>
                  && !marginKilled && !deltaKilled && !thetaKilled && !escape && !insolvent
                  && (post.margin <= ceiling || post.margin < cur.margin)
                  && (-cfg.deltaCeiling <= post.delta <= cfg.deltaCeiling || Abs(post.delta) < Abs(cur.delta))
                  && (post.theta >= cfg.thetaFloor || post.theta > cur.theta))
  {
    hide Config.MarginCeiling, Config.MarginKill;
  }

  /** What a check decides, in terms of its own figures: the fill's delta and theta are its quantity
      times the contract's, theta also times the multiplier; the hedge counts only when gating is on. */
  lemma CheckMeans(cfg: Config, optionDelta: real, theta: real, c: Check)
    ensures var o := Evaluate(cfg, Current(cfg, optionDelta, theta, c), Post(cfg, optionDelta, theta, c));
            var delta := optionDelta + (if cfg.effectiveDeltaGating then c.hedgeQty as real else 0.0);
            var postDelta := delta + (c.qty as real) * c.deltaPerContract;
            var postTheta := theta + (c.qty as real) * (c.thetaPerContract * c.multiplier);
            var (ceiling, kill) := (cfg.capital * cfg.marginCeilingPct, cfg.capital * cfg.marginKillPct);
            var marginKilled := c.postMargin > kill;
            var deltaKilled := !(-cfg.deltaKill <= postDelta <= cfg.deltaKill);
            var thetaKilled := cfg.thetaKill < 0.0 && postTheta < cfg.thetaKill;
            var insolvent := c.postLongPremium > cfg.capital && c.postLongPremium > c.curLongPremium;
            var escape := cfg.marginEscapeEnabled && c.curMargin > ceiling && c.postMargin < c.curMargin;
            && (o == Rejected(MarginKilled) <==> marginKilled)
            && (o == Rejected(DeltaKilled) <==> !marginKilled && deltaKilled)
            && (o == Rejected(ThetaKilled) <==> !marginKilled && !deltaKilled && thetaKilled)
            && (o == AcceptedMarginEscape <==> !marginKilled && !deltaKilled && !thetaKilled && escape && !insolvent)
            && (o == Rejected(LongPremium) ==> insolvent)
            && (o == Rejected(Margin) ==> c.postMargin > ceiling && !escape)
            && (o == Rejected(Delta) ==> !(-cfg.deltaCeiling <= postDelta <= cfg.deltaCeiling) && !escape)
            && (o == Rejected(Theta) ==> postTheta < cfg.thetaFloor && postTheta <= theta && !escape)
            && (o == Accepted <==>
                  && !marginKilled && !deltaKilled && !thetaKilled && !escape && !insolvent
                  && (c.postMargin <= ceiling || c.postMargin < c.curMargin)
                  && (-cfg.deltaCeiling <= postDelta <= cfg.deltaCeiling || Abs(postDelta) < Abs(delta))
                  && (postTheta >= cfg.thetaFloor || postTheta > theta))
  {
    hide Evaluate, FillDelta, FillTheta;
    var post := Post(cfg, optionDelta, theta, c);
    FillFigures(c);
    EvaluateMeans(cfg, Current(cfg, optionDelta, theta, c), post, cfg.MarginCeiling(), cfg.MarginKill());
  }

  lemma FillFigures(c: Check)
    ensures FillDelta(c) == (c.qty as real) * c.deltaPerContract
    ensures FillTheta(c) == (c.qty as real) * (c.thetaPerContract * c.multiplier)
  {
  }

  // ---- Runs of proposals ----

  /** What the gates see of the account between fills; the hedge quantity is fixed over a run. */
  datatype Portfolio = Portfolio(margin: real, optionDelta: real, theta: real, premium: real)

  datatype Proposal = Proposal(
    deltaPerContract: real, thetaPerContract: real, qty: int, multiplier: real, postMargin: real, postPremium: real)

  function AsCheck(p: Portfolio, q: Proposal, hedge: int): (c: Check) {
    Check(q.deltaPerContract, q.thetaPerContract, q.qty, q.multiplier,
          p.margin, q.postMargin, p.premium, q.postPremium, hedge)
  }

  function View(cfg: Config, p: Portfolio, hedge: int): (r: Risk) {
    Risk(p.margin, p.optionDelta + ((if cfg.effectiveDeltaGating then hedge else 0) as real), p.theta, p.premium)
  }

  function Verdict(cfg: Config, p: Portfolio, q: Proposal, hedge: int): (o: Outcome) {
    var c := AsCheck(p, q, hedge);
    Evaluate(cfg, Current(cfg, p.optionDelta, p.theta, c), Post(cfg, p.optionDelta, p.theta, c))
  }

  /** An accepted fill's post values become the current ones. */
  function StepPortfolio(cfg: Config, p: Portfolio, q: Proposal, hedge: int): (n: Portfolio) {
    var c := AsCheck(p, q, hedge);
    if Verdict(cfg, p, q, hedge).Rejected? then p
    else Portfolio(q.postMargin, p.optionDelta + FillDelta(c), p.theta + FillTheta(c), q.postPremium)
  }

  function RunPortfolio(cfg: Config, start: Portfolio, proposals: seq<Proposal>, hedge: int): (p: Portfolio) {
    if proposals == [] then start
    else
      var before := RunPortfolio(cfg, start, proposals[..|proposals| - 1], hedge);
      StepPortfolio(cfg, before, proposals[|proposals| - 1], hedge)
  }

  lemma Exchange(a: real, b: real, c: real)
    ensures (a + b) + c == (a + c) + b
  {
  }

  /** The risk after an accepted fill is the risk the next check starts from. */
  lemma ViewOfStep(cfg: Config, p: Portfolio, q: Proposal, hedge: int)
    ensures var c := AsCheck(p, q, hedge);
            View(cfg, StepPortfolio(cfg, p, q, hedge), hedge)
            == StepRisk(cfg, View(cfg, p, hedge), Post(cfg, p.optionDelta, p.theta, c))
  {
    var c := AsCheck(p, q, hedge);
    var h := (if cfg.effectiveDeltaGating then hedge else 0) as real;
    Exchange(p.optionDelta, FillDelta(c), h);
    assert Current(cfg, p.optionDelta, p.theta, c) == View(cfg, p, hedge);
  }

  /** The verdict on the n-th proposal of a run. */
  function VerdictAt(cfg: Config, start: Portfolio, proposals: seq<Proposal>, n: nat, hedge: int): (o: Outcome)
    requires n < |proposals|
  {
    Verdict(cfg, RunPortfolio(cfg, start, proposals[..n], hedge), proposals[n], hedge)
  }

  ghost predicate SomeAccepted(cfg: Config, start: Portfolio, proposals: seq<Proposal>, hedge: int) {
    exists n :: 0 <= n < |proposals| && !VerdictAt(cfg, start, proposals, n, hedge).Rejected?
  }

  lemma SomeAcceptedSnoc(cfg: Config, start: Portfolio, init: seq<Proposal>, last: Proposal, hedge: int)
    ensures SomeAccepted(cfg, start, init + [last], hedge) <==>
            || SomeAccepted(cfg, start, init, hedge)
            || !Verdict(cfg, RunPortfolio(cfg, start, init, hedge), last, hedge).Rejected?
  {
    var all := init + [last];
    forall n | 0 <= n < |init| ensures all[..n] == init[..n] && all[n] == init[n] {
    }
    assert all[..|init|] == init && all[|init|] == last;
    if SomeAccepted(cfg, start, init, hedge) {
      var n :| 0 <= n < |init| && !VerdictAt(cfg, start, init, n, hedge).Rejected?;
      assert VerdictAt(cfg, start, all, n, hedge) == VerdictAt(cfg, start, init, n, hedge);
    }
    var p := RunPortfolio(cfg, start, init, hedge);
    assert VerdictAt(cfg, start, all, |init|, hedge) == Verdict(cfg, p, last, hedge);
    if SomeAccepted(cfg, start, all, hedge) {
      var n :| 0 <= n < |all| && !VerdictAt(cfg, start, all, n, hedge).Rejected?;
      if n < |init| {
        assert VerdictAt(cfg, start, all, n, hedge) == VerdictAt(cfg, start, init, n, hedge);
      }
    }
  }

  /** One step of a run, in terms of what the gates see. */
  lemma StepOfRun(cfg: Config, p: Portfolio, q: Proposal, hedge: int)
    ensures var (o, n) := (Verdict(cfg, p, q, hedge), StepPortfolio(cfg, p, q, hedge));
            var (x, y) := (ExcessOf(cfg, View(cfg, p, hedge)), ExcessOf(cfg, View(cfg, n, hedge)));
            && (o.Rejected? ==> n == p)
            && (!o.Rejected? ==> InsideKills(cfg, View(cfg, n, hedge)))
            && y.margin <= x.margin && y.premium <= x.premium
            && (!o.AcceptedMarginEscape? ==> y.delta <= x.delta && y.theta <= x.theta)
            && (o.AcceptedMarginEscape? ==> cfg.marginEscapeEnabled && n.margin < p.margin)
  {
    ViewOfStep(cfg, p, q, hedge);
    StepIsSafe(cfg, View(cfg, p, hedge), Post(cfg, p.optionDelta, p.theta, AsCheck(p, q, hedge)));
    assert Current(cfg, p.optionDelta, p.theta, AsCheck(p, q, hedge)) == View(cfg, p, hedge);
  }

  /** Over every run: once anything has been accepted the state is inside every kill limit, and until
      then it is the start; margin and premium excess never rise; with the escape off no excess ever
      rises. */
  lemma {:induction false} EveryRunIsSafe(cfg: Config, start: Portfolio, proposals: seq<Proposal>, hedge: int)
    ensures var end := RunPortfolio(cfg, start, proposals, hedge);
            var (r, s) := (View(cfg, start, hedge), View(cfg, end, hedge));
            var (x, y) := (ExcessOf(cfg, r), ExcessOf(cfg, s));
            && (if SomeAccepted(cfg, start, proposals, hedge) then InsideKills(cfg, s) else end == start)
            && (InsideKills(cfg, r) ==> InsideKills(cfg, s))
            && y.margin <= x.margin && y.premium <= x.premium
            && (!cfg.marginEscapeEnabled ==> y.delta <= x.delta && y.theta <= x.theta)
  {
    hide View, ExcessOf, StepPortfolio, Verdict, InsideKills, SomeAccepted;
    if proposals == [] {
      NothingAccepted(cfg, start, hedge);
    } else {
      var init, last := proposals[..|proposals| - 1], proposals[|proposals| - 1];
      assert proposals == init + [last];
      EveryRunIsSafe(cfg, start, init, hedge);
      SomeAcceptedSnoc(cfg, start, init, last, hedge);
      StepOfRun(cfg, RunPortfolio(cfg, start, init, hedge), last, hedge);
    }
  }

  lemma NothingAccepted(cfg: Config, start: Portfolio, hedge: int)
    ensures !SomeAccepted(cfg, start, [], hedge)
  {
  }

  /** So over every run a cap once met stays met: margin and premium always, delta and theta with the
      escape off. */
  lemma CapsStayMet(cfg: Config, start: Portfolio, proposals: seq<Proposal>, hedge: int)
    ensures var (r, s) := (View(cfg, start, hedge), View(cfg, RunPortfolio(cfg, start, proposals, hedge), hedge));
            && (r.margin <= cfg.MarginCeiling() ==> s.margin <= cfg.MarginCeiling())
            && (r.premium <= cfg.capital ==> s.premium <= cfg.capital)
            && (!cfg.marginEscapeEnabled && Abs(r.delta) <= cfg.deltaCeiling ==> Abs(s.delta) <= cfg.deltaCeiling)
            && (!cfg.marginEscapeEnabled && r.theta >= cfg.thetaFloor ==> s.theta >= cfg.thetaFloor)
  {
    EveryRunIsSafe(cfg, start, proposals, hedge);
  }

  /** With the escape on, delta or theta excess rises over a run only if some step of it is an escape,
      and each step that raises one is. */
  lemma {:induction false} RiseIsEscape(cfg: Config, start: Portfolio, proposals: seq<Proposal>, hedge: int)
    returns (n: nat)
    requires var x := ExcessOf(cfg, View(cfg, start, hedge));
             var y := ExcessOf(cfg, View(cfg, RunPortfolio(cfg, start, proposals, hedge), hedge));
             y.delta > x.delta || y.theta > x.theta
    ensures n < |proposals| && VerdictAt(cfg, start, proposals, n, hedge) == AcceptedMarginEscape
    ensures var x := ExcessOf(cfg, View(cfg, RunPortfolio(cfg, start, proposals[..n], hedge), hedge));
            var y := ExcessOf(cfg, View(cfg, RunPortfolio(cfg, start, proposals[..n + 1], hedge), hedge));
            y.delta > x.delta || y.theta > x.theta
  {
    hide View, ExcessOf, StepPortfolio, Verdict;
    assert proposals != [];
    var init, last := proposals[..|proposals| - 1], proposals[|proposals| - 1];
    var x := ExcessOf(cfg, View(cfg, start, hedge));
    var p := RunPortfolio(cfg, start, init, hedge);
    var end := RunPortfolio(cfg, start, proposals, hedge);
    var y, z := ExcessOf(cfg, View(cfg, p, hedge)), ExcessOf(cfg, View(cfg, end, hedge));
    if z.delta > y.delta || z.theta > y.theta {
      n := |init|;
      StepOfRun(cfg, p, last, hedge);
      assert proposals[..n] == init && proposals[..n + 1] == proposals;
    } else {
      n := RiseIsEscape(cfg, start, init, hedge);
      assert proposals[..n] == init[..n] && proposals[..n + 1] == init[..n + 1];
    }
  }

  lemma {:induction false} RunConcat(cfg: Config, start: Portfolio, a: seq<Proposal>, b: seq<Proposal>, hedge: int)
    ensures RunPortfolio(cfg, start, a + b, hedge) == RunPortfolio(cfg, RunPortfolio(cfg, start, a, hedge), b, hedge)
    decreases |b|
  {
    if b == [] {
      assert a + b == a;
    } else {
      assert (a + b)[..|a + b| - 1] == a + b[..|b| - 1];
      RunConcat(cfg, start, a, b[..|b| - 1], hedge);
    }
  }

  /** Hence between any two moments of a run with the escape off no excess rises. */
  lemma SafeBetween(cfg: Config, start: Portfolio, earlier: seq<Proposal>, later: seq<Proposal>, hedge: int)
    requires !cfg.marginEscapeEnabled
    ensures var x := ExcessOf(cfg, View(cfg, RunPortfolio(cfg, start, earlier, hedge), hedge));
            var y := ExcessOf(cfg, View(cfg, RunPortfolio(cfg, start, earlier + later, hedge), hedge));
            y.margin <= x.margin && y.delta <= x.delta && y.theta <= x.theta && y.premium <= x.premium
  {
    RunConcat(cfg, start, earlier, later, hedge);
    EveryRunIsSafe(cfg, RunPortfolio(cfg, start, earlier, hedge), later, hedge);
  }

  // ---- What a run adds up to ----

  /** The proposals of a run that were not refused. */
  function AcceptedOf(cfg: Config, start: Portfolio, proposals: seq<Proposal>, hedge: int): (taken: seq<Proposal>) {
    if proposals == [] then []
    else
      var init, last := proposals[..|proposals| - 1], proposals[|proposals| - 1];
      var before := AcceptedOf(cfg, start, init, hedge);
      if Verdict(cfg, RunPortfolio(cfg, start, init, hedge), last, hedge).Rejected? then before else before + [last]
  }

  /** Delta that a proposal brings when taken. */
  function DeltaOf(q: Proposal): (d: real) {
    (q.qty as real) * q.deltaPerContract
  }

  function ThetaOf(q: Proposal): (t: real) {
    (q.qty as real) * (q.thetaPerContract * q.multiplier)
  }

  /** One accepted proposal moves the portfolio by its own figures. */
  lemma StepMoves(cfg: Config, p: Portfolio, q: Proposal, hedge: int)
    ensures var n := StepPortfolio(cfg, p, q, hedge);
            if Verdict(cfg, p, q, hedge).Rejected? then n == p
            else && n.optionDelta == p.optionDelta + DeltaOf(q) && n.theta == p.theta + ThetaOf(q)
                 && n.margin == q.postMargin && n.premium == q.postPremium
  {
    FillFigures(AsCheck(p, q, hedge));
  }

  /** Over every run the option delta is the start's plus the accepted quantities times their deltas,
      theta likewise with the multiplier, and margin and premium are those of the last accepted. */
  lemma {:induction false} RunAddsUp(cfg: Config, start: Portfolio, proposals: seq<Proposal>, hedge: int)
    ensures var end := RunPortfolio(cfg, start, proposals, hedge);
            var taken := AcceptedOf(cfg, start, proposals, hedge);
            && end.optionDelta == start.optionDelta + Sum(DeltaOf, taken)
            && end.theta == start.theta + Sum(ThetaOf, taken)
            && (if taken == [] then end == start
                else var last := taken[|taken| - 1]; end.margin == last.postMargin && end.premium == last.postPremium)
  {
    hide StepPortfolio, Verdict, DeltaOf, ThetaOf;
    if proposals != [] {
      var init, last := proposals[..|proposals| - 1], proposals[|proposals| - 1];
      var taken := AcceptedOf(cfg, start, init, hedge);
      RunAddsUp(cfg, start, init, hedge);
      StepMoves(cfg, RunPortfolio(cfg, start, init, hedge), last, hedge);
      SumSnoc(DeltaOf, taken, last);
      SumSnoc(ThetaOf, taken, last);
    }
  }
}
