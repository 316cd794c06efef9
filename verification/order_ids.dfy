/** The order-id counter: handed out to placements, raised by the gateway's nextValidId messages. */
module OrderIds {
  import opened Rounding

  const MAX_ID: i32 := I32_MAX

  /** `id + 1` as a release build computes it. */
  function Increment(id: i32): (next: i32) {
    if id == MAX_ID then I32_MIN else id + 1
  }

  datatype Event = Alloc | NextValid(oid: i32)

  /** The counter and every id returned so far, oldest first; 0 or less means not seeded. */
  datatype Ids = Ids(next: i32, handed: seq<i32>)

  function Handle(s: Ids, e: Event): (t: Ids) {
    match e
    case Alloc => Ids(if s.next > 0 then Increment(s.next) else s.next, s.handed + [s.next])
    case NextValid(oid) => if oid > s.next then s.(next := oid) else s
  }

  function Run(events: seq<Event>): (s: Ids) {
    if events == [] then Ids(0, []) else Handle(Run(events[..|events| - 1]), events[|events| - 1])
  }

  class Counter {
    var next: i32
    ghost var events: seq<Event>

    ghost predicate Valid()
      reads this
    {
      next == Run(events).next
    }

    constructor ()
      ensures Valid() && events == []
    {
      next, events := 0, [];
    }

    method AllocOrderId() returns (id: i32)
      requires Valid()
      modifies this
      ensures Valid() && events == old(events) + [Alloc]
      ensures Run(events).handed == Run(old(events)).handed + [id]
    {
      id := next;
      if id > 0 {
        next := Increment(id);
      }
      events := events + [Alloc];
      assert events[..|events| - 1] == old(events);
    }

    /** Max-merge of a broadcast id. */
    method OnNextValidId(oid: i32)
      requires Valid()
      modifies this
      ensures Valid() && events == old(events) + [NextValid(oid)]
    {
      if oid > next {
        next := oid;
      }
      events := events + [NextValid(oid)];
      assert events[..|events| - 1] == old(events);
    }
  }

  // ---- Every interleaving ----

  function Positive(ids: seq<i32>): (ps: seq<i32>)
    ensures forall p :: p in ps <==> p in ids && p > 0
  {
    if ids == [] then []
    else
      var init := Positive(ids[..|ids| - 1]);
      if ids[|ids| - 1] > 0 then init + [ids[|ids| - 1]] else init
  }

  ghost predicate Increasing(ids: seq<i32>) {
    forall i, j :: 0 <= i < j < |ids| ==> ids[i] < ids[j]
  }

  lemma IncreasingSnoc(ids: seq<i32>, p: i32)
    requires Increasing(ids) && forall x :: x in ids ==> x < p
    ensures Increasing(ids + [p])
  {
    var longer := ids + [p];
    forall i, j | 0 <= i < j < |longer| ensures longer[i] < longer[j] {
      assert ids[i] in ids;
    }
  }

  lemma PositiveSnoc(ids: seq<i32>, id: i32)
    ensures Positive(ids + [id]) == Positive(ids) + if id > 0 then [id] else []
  {
    assert (ids + [id])[..|ids|] == ids;
  }

  /** The counter after a list of events, in terms of that list. */
  ghost predicate Bounded(s: Ids, events: seq<Event>) {
    && Increasing(Positive(s.handed))
    && s.next >= 0
    && (forall p :: p in Positive(s.handed) ==> p < s.next)
    && (forall e :: e in events && e.NextValid? ==> e.oid <= s.next)
    && (s.next == 0 || NextValid(s.next) in events || s.next - 1 in Positive(s.handed))
  }

  lemma AllocBounded(s: Ids, events: seq<Event>)
    requires Bounded(s, events) && s.next != MAX_ID
    ensures Bounded(Handle(s, Alloc), events + [Alloc])
  {
    hide Positive;
    var t, longer := Handle(s, Alloc), events + [Alloc];
    var before, after := Positive(s.handed), Positive(t.handed);
    PositiveSnoc(s.handed, s.next);
    if s.next > 0 {
      assert after == before + [s.next];
      IncreasingSnoc(before, s.next);
      assert after[|before|] == t.next - 1;
    } else {
      assert after == before;
    }
    forall p | p in after ensures p < t.next {
      assert p in before || p == s.next;
    }
    forall e | e in longer && e.NextValid? ensures e.oid <= t.next {
      assert e in events;
    }
  }

  lemma NextValidBounded(s: Ids, events: seq<Event>, oid: i32)
    requires Bounded(s, events)
    ensures Bounded(Handle(s, NextValid(oid)), events + [NextValid(oid)])
  {
    assert NextValid(oid) in events + [NextValid(oid)];
  }

  /** Until the largest id has been handed out, the counter is above everything handed out and not
      below anything announced, and is one of: unseeded, an announced id, a successor. */
  lemma {:induction false} CounterBounds(events: seq<Event>)
    requires MAX_ID !in Run(events).handed
    ensures Bounded(Run(events), events)
  {
    if events != [] {
      var init, e := events[..|events| - 1], events[|events| - 1];
      assert events == init + [e];
      var s := Run(init);
      assert Run(events) == Handle(s, e);
      match e
      case Alloc =>
        assert Run(events).handed == s.handed + [s.next];
        CounterBounds(init);
        AllocBounded(s, init);
      case NextValid(oid) =>
        CounterBounds(init);
        NextValidBounded(s, init, oid);
    }
  }

  /** Ids are strictly increasing, hence never reused, exactly when nothing was handed out after the
      largest id: the counter wraps there and a later broadcast restarts it from below. */
  lemma NeverReusedIff(events: seq<Event>)
    ensures var ids := Positive(Run(events).handed);
            Increasing(ids) <==> ids == [] || MAX_ID !in ids[..|ids| - 1]
  {
    var ids := Positive(Run(events).handed);
    if ids != [] {
      if MAX_ID in ids[..|ids| - 1] {
        var i :| 0 <= i < |ids| - 1 && ids[i] == MAX_ID;
        assert ids[i] >= ids[|ids| - 1];
      } else {
        IncreasingBeforeLast(events);
      }
    }
  }

  /** One more positive id, when the largest has not been handed out yet, keeps the order. */
  lemma PositiveAllocIncreases(init: seq<Event>)
    requires Run(init).next > 0 && MAX_ID !in Run(init).handed
    ensures Increasing(Positive(Run(init).handed) + [Run(init).next])
  {
    CounterBounds(init);
    IncreasingSnoc(Positive(Run(init).handed), Run(init).next);
  }

  lemma {:induction false} IncreasingBeforeLast(events: seq<Event>)
    requires var ids := Positive(Run(events).handed); ids != [] && MAX_ID !in ids[..|ids| - 1]
    ensures Increasing(Positive(Run(events).handed))
  {
    hide Positive, Increasing;
    assert Positive(Run(events).handed)[0] in Run(events).handed;
    var init, e := events[..|events| - 1], events[|events| - 1];
    var s := Run(init);
    assert Run(events) == Handle(s, e);
    if e.Alloc? {
      PositiveSnoc(s.handed, s.next);
    }
    if e.Alloc? && s.next > 0 {
      assert (Positive(s.handed) + [s.next])[..|Positive(s.handed)|] == Positive(s.handed);
      PositiveAllocIncreases(init);
    } else {
      assert Positive(s.handed) + [] == Positive(s.handed);
      IncreasingBeforeLast(init);
    }
  }

  // ---- The condition on the events alone ----

  function Allocations(events: seq<Event>): (n: nat) {
    if events == [] then 0 else Allocations(events[..|events| - 1]) + if events[|events| - 1].Alloc? then 1 else 0
  }

  /** Every announced id, plus the allocations that follow it, stays within the 32-bit range. */
  ghost predicate WithinRange(events: seq<Event>, limit: int) {
    forall i :: 0 <= i < |events| && events[i].NextValid? && events[i].oid > 0 ==>
      events[i].oid + Allocations(events[i + 1..]) <= limit
  }

  /** The counter with no width: the largest announced id plus the allocations after it. */
  function Ideal(events: seq<Event>): (n: nat) {
    if events == [] then 0
    else
      var before := Ideal(events[..|events| - 1]);
      match events[|events| - 1]
      case Alloc => if before > 0 then before + 1 else 0
      case NextValid(oid) => if oid > before then oid else before
  }

  lemma AllocationsSnoc(events: seq<Event>, e: Event)
    ensures Allocations(events + [e]) == Allocations(events) + if e.Alloc? then 1 else 0
  {
    assert (events + [e])[..|events|] == events;
  }

  lemma WithinRangeSnoc(init: seq<Event>, e: Event, limit: int)
    ensures WithinRange(init + [e], limit) <==>
            && WithinRange(init, if e.Alloc? then limit - 1 else limit)
            && (e.NextValid? && e.oid > 0 ==> e.oid <= limit)
  {
    var events := init + [e];
    forall i | 0 <= i < |init|
      ensures events[i] == init[i]
      ensures Allocations(events[i + 1..]) == Allocations(init[i + 1..]) + if e.Alloc? then 1 else 0
    {
      AllocationsSnoc(init[i + 1..], e);
      assert events[i + 1..] == init[i + 1..] + [e];
    }
    assert events[|init|] == e && events[|init| + 1..] == [];
    if WithinRange(events, limit) {
      assert e.NextValid? && e.oid > 0 ==> e.oid + Allocations(events[|init| + 1..]) <= limit;
    }
  }

  lemma {:induction false} IdealWithin(events: seq<Event>, limit: int)
    ensures Ideal(events) == 0 || Ideal(events) <= limit <==> WithinRange(events, limit)
  {
    if events != [] {
      var init, e := events[..|events| - 1], events[|events| - 1];
      assert events == init + [e];
      WithinRangeSnoc(init, e, limit);
      IdealWithin(init, if e.Alloc? then limit - 1 else limit);
    }
  }

  /** Each id handed out is above the one before, save that an unseeded counter answers zero. */
  ghost predicate Orderly(ids: seq<i32>) {
    forall i, j :: 0 <= i < j < |ids| ==> ids[i] < ids[j] || ids[i] == ids[j] == 0
  }

  ghost predicate Below(ids: seq<i32>, bound: int) {
    forall id :: id in ids ==> id == 0 || 0 < id < bound
  }

  lemma OrderlySnoc(ids: seq<i32>, id: i32)
    requires Orderly(ids) && Below(ids, id) && id >= 0
    requires id == 0 ==> forall x :: x in ids ==> x == 0
    ensures Orderly(ids + [id]) && Below(ids + [id], id + 1)
  {
    var longer := ids + [id];
    forall i, j | 0 <= i < j < |longer| ensures longer[i] < longer[j] || longer[i] == longer[j] == 0 {
      assert ids[i] in ids;
    }
  }

  /** Within range the counter is the unbounded one, and everything handed out is in order below it. */
  lemma {:induction false} InRangeIsIdeal(events: seq<Event>)
    requires Ideal(events) <= MAX_ID + 1
    ensures var s := Run(events);
            && Orderly(s.handed) && Below(s.handed, Ideal(events))
            && (Ideal(events) == 0 ==> forall id :: id in s.handed ==> id == 0)
            && (Ideal(events) <= MAX_ID ==> s.next == Ideal(events))
            && (Ideal(events) == MAX_ID + 1 ==> MAX_ID in s.handed)
  {
    if events != [] {
      var init := events[..|events| - 1];
      InRangeIsIdeal(init);
      if events[|events| - 1].Alloc? {
        OrderlySnoc(Run(init).handed, Run(init).next);
        assert Run(events).handed[|Run(init).handed|] == Run(init).next;
      }
    }
  }

  lemma MaxThenAnother(ids: seq<i32>, id: i32)
    requires MAX_ID in ids
    ensures !Orderly(ids + [id])
  {
    var i :| 0 <= i < |ids| && ids[i] == MAX_ID;
    assert (ids + [id])[i] == MAX_ID && (ids + [id])[|ids|] == id;
  }

  lemma {:induction false} OutOfRangeBreaks(events: seq<Event>)
    requires Ideal(events) > MAX_ID + 1
    ensures !Orderly(Run(events).handed)
  {
    var init, e := events[..|events| - 1], events[|events| - 1];
    if Ideal(init) > MAX_ID + 1 {
      OutOfRangeBreaks(init);
      var ids := Run(init).handed;
      var i, j :| 0 <= i < j < |ids| && !(ids[i] < ids[j] || ids[i] == ids[j] == 0);
      assert Run(events).handed[i] == ids[i] && Run(events).handed[j] == ids[j];
    } else {
      InRangeIsIdeal(init);
      MaxThenAnother(Run(init).handed, Run(init).next);
    }
  }

  /** Every id handed out is above all earlier ones (zeros of an unseeded counter apart) if and only
      if each announced id plus the allocations after it stays within the 32-bit range. */
  lemma OrderlyIff(events: seq<Event>)
    ensures Orderly(Run(events).handed) <==> WithinRange(events, MAX_ID + 1)
  {
    IdealWithin(events, MAX_ID + 1);
    if Ideal(events) <= MAX_ID + 1 {
      InRangeIsIdeal(events);
    } else {
      OutOfRangeBreaks(events);
    }
  }

  /** No id is handed out below any id announced before it, the first announcement included. */
  lemma AtLeastAnnounced(events: seq<Event>, oid: i32)
    requires NextValid(oid) in events && MAX_ID !in Run(events).handed
    ensures Run(events + [Alloc]).handed == Run(events).handed + [Run(events).next]
    ensures Run(events).next >= oid
  {
    assert (events + [Alloc])[..|events|] == events;
    CounterBounds(events);
  }

  /** The wrap is reachable: after the largest id a stale broadcast makes id 1 come out. */
  lemma WrapReuses()
    ensures Run([NextValid(1), Alloc, NextValid(MAX_ID), Alloc, NextValid(1), Alloc]).handed == [1, MAX_ID, 1]
  {
    var a := [NextValid(1), Alloc, NextValid(MAX_ID), Alloc, NextValid(1), Alloc];
    assert a[..5] == [NextValid(1), Alloc, NextValid(MAX_ID), Alloc, NextValid(1)];
    assert a[..5][..4] == [NextValid(1), Alloc, NextValid(MAX_ID), Alloc];
    assert a[..5][..4][..3] == [NextValid(1), Alloc, NextValid(MAX_ID)];
    assert a[..5][..4][..3][..2] == [NextValid(1), Alloc];
    assert a[..5][..4][..3][..2][..1] == [NextValid(1)];
    assert Run([NextValid(1)]) == Ids(1, []);
    assert Run([NextValid(1), Alloc]) == Ids(2, [1]);
    assert Run([NextValid(1), Alloc, NextValid(MAX_ID)]) == Ids(MAX_ID, [1]);
    assert Run(a[..5][..4]) == Ids(I32_MIN, [1, MAX_ID]);
    assert Run(a[..5]) == Ids(1, [1, MAX_ID]);
  }
}
