/** The forward implied by put-call parity: per strike from both mids, then the median. */
module ParityForward {
  import opened Sums
  import opened Wrappers

  datatype Quote = Quote(bid: real, ask: real, strike: real, putCall: string)

  /** Strikes in the order they were first seen, and per strike the latest mid of each side. */
  datatype Pairs = Pairs(order: seq<real>, mids: map<real, map<string, real>>)

  predicate Usable(q: Quote, maxSpread: real) {
    q.bid > 0.0 && q.ask > 0.0 && q.ask - q.bid <= maxSpread
  }

  function Mid(q: Quote): (m: real) {
    (q.bid + q.ask) / 2.0
  }

  /** `pairs.setdefault(K, {})[side] = mid`. */
  function SetSide(p: Pairs, strike: real, side: string, mid: real): (n: Pairs) {
    if strike in p.mids then p.(mids := p.mids[strike := p.mids[strike][side := mid]])
    else Pairs(p.order + [strike], p.mids[strike := map[side := mid]])
  }

  function Collect(quotes: seq<Quote>, maxSpread: real): (p: Pairs) {
    if quotes == [] then Pairs([], map[])
    else
      var p, q := Collect(quotes[..|quotes| - 1], maxSpread), quotes[|quotes| - 1];
      if Usable(q, maxSpread) then SetSide(p, q.strike, q.putCall, Mid(q)) else p
  }

  function Distance(x: real, y: real): (d: real) {
    if x < y then y - x else x - y
  }

  /** The forward a strike implies, if it has both sides and is near enough to the reference. */
  function StrikeForward(strike: real, sides: map<string, real>, ref: real, maxDeviation: real): (f: Option<real>) {
    if "C" !in sides || "P" !in sides then None
    else
      var forward := strike + (sides["C"] - sides["P"]);
      if Distance(forward, ref) <= maxDeviation then Some(forward) else None
  }

  ghost predicate WellFormed(p: Pairs) {
    forall k :: k in p.order ==> k in p.mids
  }

  /** Surviving forwards, in strike order of first appearance. */
  function Forwards(order: seq<real>, mids: map<real, map<string, real>>, ref: real, maxDeviation: real)
    : (fs: seq<real>)
    requires forall k :: k in order ==> k in mids
    ensures forall f :: f in fs ==> Distance(f, ref) <= maxDeviation
  {
    if order == [] then []
    else
      var init := Forwards(order[..|order| - 1], mids, ref, maxDeviation);
      var last := order[|order| - 1];
      match StrikeForward(last, mids[last], ref, maxDeviation)
      case None => init
      case Some(f) => init + [f]
  }

  // ---- Sorting ----

  ghost predicate Sorted(s: seq<real>) {
    forall i, j :: 0 <= i < j < |s| ==> s[i] <= s[j]
  }

  function Insert(x: real, s: seq<real>): (t: seq<real>)
    requires Sorted(s)
    ensures Sorted(t) && |t| == |s| + 1
    ensures forall i :: 0 <= i < |t| ==> t[i] == x || t[i] in s
  {
    if s == [] || s[|s| - 1] <= x then s + [x]
    else
      var rest := Insert(x, s[..|s| - 1]);
      assert forall i :: 0 <= i < |rest| ==> rest[i] <= s[|s| - 1];
      rest + [s[|s| - 1]]
  }

  function Sort(s: seq<real>): (t: seq<real>)
    ensures Sorted(t) && |t| == |s|
  {
    if s == [] then [] else Insert(s[|s| - 1], Sort(s[..|s| - 1]))
  }

  lemma {:induction false} InsertMultiset(x: real, s: seq<real>)
    requires Sorted(s)
    ensures multiset(Insert(x, s)) == multiset(s) + multiset{x}
  {
    if s != [] && s[|s| - 1] > x {
      var init := s[..|s| - 1];
      assert s == init + [s[|s| - 1]];
      InsertMultiset(x, init);
    }
  }

  lemma {:induction false} SortMultiset(s: seq<real>)
    ensures multiset(Sort(s)) == multiset(s)
  {
    if s != [] {
      var init := s[..|s| - 1];
      assert s == init + [s[|s| - 1]];
      SortMultiset(init);
      InsertMultiset(s[|s| - 1], Sort(init));
    }
  }

  /** The upper median. */
  function Median(s: seq<real>): (m: real)
    requires s != []
    ensures m in s
  {
    SortMultiset(s);
    var t := Sort(s);
    assert t[|t| / 2] in multiset(s);
    t[|t| / 2]
  }

  function Implied(quotes: seq<Quote>, ref: real, maxSpread: real, maxDeviation: real): (f: Option<real>)
  {
    CollectWellFormed(quotes, maxSpread);
    var p := Collect(quotes, maxSpread);
    var fs := Forwards(p.order, p.mids, ref, maxDeviation);
    if fs == [] then None else Some(Median(fs))
  }

  lemma {:induction false} CollectWellFormed(quotes: seq<Quote>, maxSpread: real)
    ensures var p := Collect(quotes, maxSpread);
            WellFormed(p) && (forall k :: k in p.mids ==> k in p.order)
            && (forall i, j :: 0 <= i < j < |p.order| ==> p.order[i] != p.order[j])
  {
    if quotes != [] {
      CollectWellFormed(quotes[..|quotes| - 1], maxSpread);
    }
  }

  // ---- The two implementations ----

  /** Shared tail of both: filter, sort, take the middle. */
  method MedianForward(p: Pairs, ref: real, maxDeviation: real) returns (f: Option<real>)
    requires WellFormed(p)
    ensures var fs := Forwards(p.order, p.mids, ref, maxDeviation);
            f == if fs == [] then None else Some(Median(fs))
  {
    var forwards := [];
    for i := 0 to |p.order|
      invariant forwards == Forwards(p.order[..i], p.mids, ref, maxDeviation)
    {
      var k := p.order[i];
      assert p.order[..i + 1][..i] == p.order[..i];
      var sides := p.mids[k];
      if "C" in sides && "P" in sides {
        var forward := k + (sides["C"] - sides["P"]);
        if Distance(forward, ref) <= maxDeviation {
          forwards := forwards + [forward];
        }
      }
    }
    assert p.order[..|p.order|] == p.order;
    if |forwards| == 0 {
      return None;
    }
    forwards := Sort(forwards);
    f := Some(forwards[|forwards| / 2]);
  }

  /** Over option objects: three separate rejections. */
  method ImpliedForwardFromParity(options: seq<Quote>, ref: real, maxSpread: real, maxDeviation: real)
    returns (f: Option<real>)
    ensures f == Implied(options, ref, maxSpread, maxDeviation)
  {
    var pairs := Pairs([], map[]);
    for i := 0 to |options|
      invariant pairs == Collect(options[..i], maxSpread)
    {
      var opt := options[i];
      assert options[..i + 1][..i] == options[..i];
      if opt.bid <= 0.0 || opt.ask <= 0.0 {
        continue;
      }
      if opt.ask - opt.bid > maxSpread {
        continue;
      }
      var mid := (opt.bid + opt.ask) / 2.0;
      pairs := SetSide(pairs, opt.strike, opt.putCall, mid);
    }
    assert options[..|options|] == options;
    CollectWellFormed(options, maxSpread);
    f := MedianForward(pairs, ref, maxDeviation);
  }

  /** Over plain dictionaries, in a worker process: one combined rejection. */
  method ParityImpliedForwardDict(opts: seq<Quote>, ref: real, maxSpread: real, maxDev: real) returns (f: Option<real>)
    ensures f == Implied(opts, ref, maxSpread, maxDev)
  {
    var pairs := Pairs([], map[]);
    for i := 0 to |opts|
      invariant pairs == Collect(opts[..i], maxSpread)
    {
      var bid, ask := opts[i].bid, opts[i].ask;
      assert opts[..i + 1][..i] == opts[..i];
      if bid <= 0.0 || ask <= 0.0 || ask - bid > maxSpread {
        continue;
      }
      pairs := SetSide(pairs, opts[i].strike, opts[i].putCall, (bid + ask) / 2.0);
    }
    assert opts[..|opts|] == opts;
    CollectWellFormed(opts, maxSpread);
    f := MedianForward(pairs, ref, maxDev);
  }

  // ---- Robustness ----

  function Indicator(lo: real, hi: real): (f: real -> real) {
    (x: real) => if lo <= x <= hi then 1.0 else 0.0
  }

  /** How many of the values lie in an interval. */
  function Within(s: seq<real>, lo: real, hi: real): (n: real) {
    Sum(Indicator(lo, hi), s)
  }

  lemma {:induction false} WithinAtMost(s: seq<real>, lo: real, hi: real)
    ensures Within(s, lo, hi) <= |s| as real
  {
    if s != [] {
      WithinAtMost(s[..|s| - 1], lo, hi);
    }
  }

  lemma {:induction false} NoneWithin(s: seq<real>, lo: real, hi: real)
    requires forall i :: 0 <= i < |s| ==> !(lo <= s[i] <= hi)
    ensures Within(s, lo, hi) == 0.0
  {
    if s != [] {
      NoneWithin(s[..|s| - 1], lo, hi);
    }
  }

  /** A stretch with no value in the interval bounds the count by the rest. */
  lemma WithinRest(t: seq<real>, i: nat, j: nat, lo: real, hi: real)
    requires i <= j <= |t| && forall k :: i <= k < j ==> !(lo <= t[k] <= hi)
    ensures Within(t, lo, hi) <= (|t| - (j - i)) as real
  {
    var f := Indicator(lo, hi);
    assert t == t[..i] + t[i..j] + t[j..];
    SumConcat(f, t[..i] + t[i..j], t[j..]);
    SumConcat(f, t[..i], t[i..j]);
    NoneWithin(t[i..j], lo, hi);
    WithinAtMost(t[..i], lo, hi);
    WithinAtMost(t[j..], lo, hi);
  }

  /** In a sorted list, the middle of a majority is the middle. */
  lemma MiddleOfSorted(t: seq<real>, lo: real, hi: real)
    requires t != [] && Sorted(t) && 2.0 * Within(t, lo, hi) > |t| as real
    ensures lo <= t[|t| / 2] <= hi
  {
    var m := |t| / 2;
    if t[m] < lo {
      WithinRest(t, 0, m + 1, lo, hi);
    }
    if t[m] > hi {
      WithinRest(t, m, |t|, lo, hi);
    }
  }

  /** If more than half of the values lie in an interval, so does the median. */
  lemma MedianOfMajority(s: seq<real>, lo: real, hi: real)
    requires s != [] && 2.0 * Within(s, lo, hi) > |s| as real
    ensures lo <= Median(s) <= hi
  {
    SortMultiset(s);
    SumPermutes(Indicator(lo, hi), s, Sort(s));
    MiddleOfSorted(Sort(s), lo, hi);
  }

  /** The forward is absent exactly when no strike survives; a returned one is some surviving
      strike's and within the deviation limit; and a majority of the surviving strikes implying
      forwards in an interval (one point, say) settles it, whatever the others imply. */
  lemma ImpliedIsRobust(quotes: seq<Quote>, ref: real, maxSpread: real, maxDeviation: real, lo: real, hi: real)
    ensures WellFormed(Collect(quotes, maxSpread))
    ensures var p := Collect(quotes, maxSpread);
            var fs := Forwards(p.order, p.mids, ref, maxDeviation);
            var f := Implied(quotes, ref, maxSpread, maxDeviation);
            && (f.None? <==> fs == [])
            && (f.Some? ==> f.value in fs && -maxDeviation <= f.value - ref <= maxDeviation)
            && (2.0 * Within(fs, lo, hi) > |fs| as real ==> f.Some? && lo <= f.value <= hi)
  {
    CollectWellFormed(quotes, maxSpread);
    var p := Collect(quotes, maxSpread);
    var fs := Forwards(p.order, p.mids, ref, maxDeviation);
    if 2.0 * Within(fs, lo, hi) > |fs| as real {
      MedianOfMajority(fs, lo, hi);
    }
  }

  /** Put-call parity at a strike: the forward is the strike plus the call less the put. */
  predicate Implies(strike: real, sides: map<string, real>, f: real) {
    "C" in sides && "P" in sides && f == strike + sides["C"] - sides["P"]
  }

  /** Each strike counts once: the surviving forwards are at most one per distinct strike, and a
      strike survives with the forward of its latest usable call and put. */
  lemma {:induction false} SurvivorsAreStrikes(
      order: seq<real>, mids: map<real, map<string, real>>, ref: real, maxDeviation: real, f: real)
    requires forall k :: k in order ==> k in mids
    ensures |Forwards(order, mids, ref, maxDeviation)| <= |order|
    ensures f in Forwards(order, mids, ref, maxDeviation) <==>
            exists k :: k in order && Implies(k, mids[k], f) && -maxDeviation <= f - ref <= maxDeviation
  {
    if order != [] {
      var init, last := order[..|order| - 1], order[|order| - 1];
      SurvivorsAreStrikes(init, mids, ref, maxDeviation, f);
      forall k ensures k in order <==> k in init || k == last {
        assert order == init + [last];
      }
    }
  }

  /** Both prices live and not too far apart. */
  predicate Tradable(q: Quote, maxSpread: real) {
    q.bid > 0.0 && q.ask > 0.0 && q.ask - q.bid <= maxSpread
  }

  /** The mid kept for a strike and side is that of the last usable quote for them. */
  lemma {:induction false} LatestQuoteWins(quotes: seq<Quote>, maxSpread: real, i: nat)
    requires i < |quotes| && Tradable(quotes[i], maxSpread)
    requires forall j ::
               i < j < |quotes| && quotes[j].strike == quotes[i].strike && quotes[j].putCall == quotes[i].putCall
               ==> !Tradable(quotes[j], maxSpread)
    ensures var (m, q) := (Collect(quotes, maxSpread).mids, quotes[i]);
            q.strike in m && q.putCall in m[q.strike] && m[q.strike][q.putCall] == (q.bid + q.ask) / 2.0
  {
    var init, last := quotes[..|quotes| - 1], quotes[|quotes| - 1];
    if i < |init| {
      assert init[i] == quotes[i];
      forall j | i < j < |init| && init[j].strike == init[i].strike && init[j].putCall == init[i].putCall
        ensures !Tradable(init[j], maxSpread)
      {
        assert init[j] == quotes[j];
      }
      LatestQuoteWins(init, maxSpread, i);
    }
  }

  /** Every mid kept is that of a tradable quote of its strike and side, and every such quote left one. */
  lemma {:induction false} MidsAreQuotes(quotes: seq<Quote>, maxSpread: real, k: real, side: string)
    ensures var m := Collect(quotes, maxSpread).mids;
            && (k in m && side in m[k] ==>
                  exists q :: && q in quotes && Tradable(q, maxSpread) && q.strike == k && q.putCall == side
                              && m[k][side] == (q.bid + q.ask) / 2.0)
            && ((exists q :: q in quotes && Tradable(q, maxSpread) && q.strike == k && q.putCall == side)
                  ==> k in m && side in m[k])
  {
    if quotes != [] {
      var init, last := quotes[..|quotes| - 1], quotes[|quotes| - 1];
      assert quotes == init + [last];
      MidsAreQuotes(init, maxSpread, k, side);
    }
  }

  /** The tradable quotes of a chain obey put-call parity at a forward. */
  ghost predicate ParityAt(quotes: seq<Quote>, maxSpread: real, forward: real) {
    forall c, p :: c in quotes && p in quotes && Tradable(c, maxSpread) && Tradable(p, maxSpread)
                   && c.strike == p.strike && c.putCall == "C" && p.putCall == "P" ==>
      (c.bid + c.ask) / 2.0 - (p.bid + p.ask) / 2.0 == forward - c.strike
  }

  /** Such a chain yields that forward, exactly when some strike is quoted on both sides and the
      forward is within the deviation limit; otherwise it yields nothing. */
  lemma ParityIsRecovered(quotes: seq<Quote>, ref: real, maxSpread: real, maxDeviation: real, forward: real)
    requires ParityAt(quotes, maxSpread, forward)
    ensures var twoSided := exists c, p :: c in quotes && p in quotes
                              && Tradable(c, maxSpread) && Tradable(p, maxSpread)
                              && c.strike == p.strike && c.putCall == "C" && p.putCall == "P";
            Implied(quotes, ref, maxSpread, maxDeviation) ==
            if twoSided && -maxDeviation <= forward - ref <= maxDeviation then Some(forward) else None
  {
    CollectWellFormed(quotes, maxSpread);
    var p := Collect(quotes, maxSpread);
    var fs := Forwards(p.order, p.mids, ref, maxDeviation);
    forall f | f in fs ensures f == forward && -maxDeviation <= f - ref <= maxDeviation {
      SurvivorIsParity(quotes, ref, maxSpread, maxDeviation, forward, f);
    }
    if c, q :| c in quotes && q in quotes && Tradable(c, maxSpread) && Tradable(q, maxSpread)
               && c.strike == q.strike && c.putCall == "C" && q.putCall == "P" {
      TwoSidedSurvives(quotes, ref, maxSpread, maxDeviation, forward, c, q);
    } else if fs != [] {
      SurvivorIsParity(quotes, ref, maxSpread, maxDeviation, forward, fs[0]);
    }
    assert fs == [] || Median(fs) in fs;
  }

  /** A surviving forward comes from a strike quoted on both sides, and is the parity forward. */
  lemma SurvivorIsParity(quotes: seq<Quote>, ref: real, maxSpread: real, maxDeviation: real, forward: real, f: real)
    requires ParityAt(quotes, maxSpread, forward)
    requires forall k :: k in Collect(quotes, maxSpread).order ==> k in Collect(quotes, maxSpread).mids
    requires var p := Collect(quotes, maxSpread); f in Forwards(p.order, p.mids, ref, maxDeviation)
    ensures f == forward && -maxDeviation <= f - ref <= maxDeviation
    ensures exists c, q :: && c in quotes && q in quotes && Tradable(c, maxSpread) && Tradable(q, maxSpread)
                           && c.strike == q.strike && c.putCall == "C" && q.putCall == "P"
  {
    var p := Collect(quotes, maxSpread);
    SurvivorsAreStrikes(p.order, p.mids, ref, maxDeviation, f);
    var k :| k in p.order && Implies(k, p.mids[k], f);
    hide Collect, Forwards;
    ParityOfMids(quotes, maxSpread, forward, k);
    MidsAreQuotes(quotes, maxSpread, k, "C");
    MidsAreQuotes(quotes, maxSpread, k, "P");
  }

  lemma TwoSidedSurvives(
      quotes: seq<Quote>, ref: real, maxSpread: real, maxDeviation: real, forward: real, c: Quote, q: Quote)
    requires ParityAt(quotes, maxSpread, forward) && c in quotes && q in quotes
    requires Tradable(c, maxSpread) && Tradable(q, maxSpread)
    requires c.strike == q.strike && c.putCall == "C" && q.putCall == "P"
    requires forall k :: k in Collect(quotes, maxSpread).order ==> k in Collect(quotes, maxSpread).mids
    requires forall k :: k in Collect(quotes, maxSpread).mids ==> k in Collect(quotes, maxSpread).order
    ensures var p := Collect(quotes, maxSpread);
            forward in Forwards(p.order, p.mids, ref, maxDeviation) <==> -maxDeviation <= forward - ref <= maxDeviation
  {
    var p, k := Collect(quotes, maxSpread), c.strike;
    MidsAreQuotes(quotes, maxSpread, k, "C");
    MidsAreQuotes(quotes, maxSpread, k, "P");
    ParityOfMids(quotes, maxSpread, forward, k);
    SurvivorsAreStrikes(p.order, p.mids, ref, maxDeviation, forward);
    hide Collect, Forwards;
    assert Implies(k, p.mids[k], forward);
  }

  lemma ParityOfMids(quotes: seq<Quote>, maxSpread: real, forward: real, k: real)
    requires ParityAt(quotes, maxSpread, forward)
    requires var m := Collect(quotes, maxSpread).mids; k in m && "C" in m[k] && "P" in m[k]
    ensures var m := Collect(quotes, maxSpread).mids; forward == k + m[k]["C"] - m[k]["P"]
  {
    MidsAreQuotes(quotes, maxSpread, k, "C");
    MidsAreQuotes(quotes, maxSpread, k, "P");
  }
}
