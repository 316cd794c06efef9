/** Our orders, indexed by key and by broker order id. */
module OrderBook {
  import opened BrokerTypes
  import opened Wrappers

  datatype OrderState = Pending | Live | PendingCancel | Terminal

  datatype OrderRecord = OrderRecord(orderId: Option<int>, price: real, qty: nat, state: OrderState, lastSendNs: nat)

  datatype Counters = Counters(places: nat, cancels: nat, placeAcks: nat, fills: nat, rejects: nat)

  datatype Book<Key> = Book(byKey: map<Key, OrderRecord>, byOrderId: map<int, Key>, counters: Counters)

  function EmptyBook<Key>(): (b: Book<Key>) {
    Book(map[], map[], Counters(0, 0, 0, 0, 0))
  }

  predicate IsTerminal(s: OrderStatus) {
    s in {Filled, Cancelled, Rejected, Inactive}
  }

  function Upserted<Key(==)>(b: Book<Key>, key: Key, price: real, qty: nat, ns: nat): (c: Book<Key>) {
    var reverse := if key in b.byKey && b.byKey[key].orderId.Some? then b.byOrderId - {b.byKey[key].orderId.value}
                   else b.byOrderId;
    Book(b.byKey[key := OrderRecord(None, price, qty, Pending, ns)], reverse,
         b.counters.(places := b.counters.places + 1))
  }

  function Linked<Key(==)>(b: Book<Key>, key: Key, oid: int): (c: Book<Key>) {
    var counters := b.counters.(placeAcks := b.counters.placeAcks + 1);
    if key in b.byKey then
      Book(b.byKey[key := b.byKey[key].(orderId := Some(oid))], b.byOrderId[oid := key], counters)
    else b.(counters := counters)
  }

  function StateAfter(s: OrderStatus): (t: OrderState) {
    match s
    case PendingSubmit => Pending
    case PendingCancel => Pending
    case Submitted => Live
    case _ => Terminal
  }

  function Count(c: Counters, s: OrderStatus): (d: Counters) {
    match s
    case Filled => c.(fills := c.fills + 1)
    case Cancelled => c.(cancels := c.cancels + 1)
    case Rejected => c.(rejects := c.rejects + 1)
    case _ => c
  }

  /** A terminal status removes the record it finds; an index entry without a record stays. */
  function WithStatus<Key(==)>(b: Book<Key>, oid: int, s: OrderStatus): (c: Book<Key>) {
    if oid !in b.byOrderId || b.byOrderId[oid] !in b.byKey then b
    else
      var key := b.byOrderId[oid];
      if IsTerminal(s) then Book(b.byKey - {key}, b.byOrderId - {oid}, Count(b.counters, s))
      else b.(byKey := b.byKey[key := b.byKey[key].(state := StateAfter(s))])
  }

  function Cancelling<Key(==)>(b: Book<Key>, key: Key): (c: Book<Key>) {
    if key in b.byKey then b.(byKey := b.byKey[key := b.byKey[key].(state := OrderState.PendingCancel)]) else b
  }

  class OrderBook<Key(==)> {
    var byKey: map<Key, OrderRecord>
    var byOrderId: map<int, Key>
    var counters: Counters

    function State(): (b: Book<Key>)
      reads this
    {
      Book(byKey, byOrderId, counters)
    }

    constructor ()
      ensures State() == EmptyBook()
    {
      byKey, byOrderId, counters := map[], map[], Counters(0, 0, 0, 0, 0);
    }

    method UpsertPending(key: Key, price: real, qty: nat, lastSendNs: nat)
      modifies this
      ensures State() == Upserted(old(State()), key, price, qty, lastSendNs)
    {
      if key in byKey {
        var prev := byKey[key];
        if prev.orderId.Some? {
          byOrderId := byOrderId - {prev.orderId.value};
        }
      }
      byKey := byKey[key := OrderRecord(None, price, qty, Pending, lastSendNs)];
      counters := counters.(places := counters.places + 1);
    }

    method LinkOrderId(key: Key, oid: int)
      modifies this
      ensures State() == Linked(old(State()), key, oid)
    {
      if key in byKey {
        byKey := byKey[key := byKey[key].(orderId := Some(oid))];
        byOrderId := byOrderId[oid := key];
      }
      counters := counters.(placeAcks := counters.placeAcks + 1);
    }

    /** Returns whether the id was known. */
    method ApplyStatus(oid: int, status: OrderStatus) returns (existed: bool)
      modifies this
      ensures existed == (oid in old(byOrderId))
      ensures State() == WithStatus(old(State()), oid, status)
    {
      if oid !in byOrderId {
        return false;
      }
      var key := byOrderId[oid];
      var shouldRemove := false;
      if key in byKey {
        var rec := byKey[key];
        match status {
          case PendingSubmit | PendingCancel =>
            rec := rec.(state := Pending);
          case Submitted =>
            rec := rec.(state := Live);
          case Filled =>
            rec := rec.(state := Terminal);
            counters := counters.(fills := counters.fills + 1);
            shouldRemove := true;
          case Cancelled =>
            rec := rec.(state := Terminal);
            counters := counters.(cancels := counters.cancels + 1);
            shouldRemove := true;
          case Rejected =>
            rec := rec.(state := Terminal);
            counters := counters.(rejects := counters.rejects + 1);
            shouldRemove := true;
          case Inactive =>
            rec := rec.(state := Terminal);
            shouldRemove := true;
        }
        byKey := byKey[key := rec];
      }
      if shouldRemove {
        byKey := byKey - {key};
        byOrderId := byOrderId - {oid};
      }
      existed := true;
    }

    method MarkPendingCancel(key: Key)
      modifies this
      ensures State() == Cancelling(old(State()), key)
    {
      if key in byKey {
        byKey := byKey[key := byKey[key].(state := OrderState.PendingCancel)];
      }
    }
  }

  // ---- Index consistency ----

  /** The two maps are inverse to each other on the records that have a broker id. */
  ghost predicate Inverse<Key(!new)>(b: Book<Key>) {
    && (forall oid :: oid in b.byOrderId ==>
          b.byOrderId[oid] in b.byKey && b.byKey[b.byOrderId[oid]].orderId == Some(oid))
    && (forall k :: k in b.byKey && b.byKey[k].orderId.Some? ==>
          b.byKey[k].orderId.value in b.byOrderId && b.byOrderId[b.byKey[k].orderId.value] == k)
  }

  lemma UpsertKeepsInverse<Key(!new)>(b: Book<Key>, key: Key, price: real, qty: nat, ns: nat)
    requires Inverse(b)
    ensures Inverse(Upserted(b, key, price, qty, ns))
  {
  }

  lemma StatusKeepsInverse<Key(!new)>(b: Book<Key>, oid: int, s: OrderStatus)
    requires Inverse(b)
    ensures Inverse(WithStatus(b, oid, s))
  {
  }

  /** Linking keeps the maps inverse exactly when the record has no other id and the id no other
      record. */
  lemma LinkKeepsInverseIff<Key(!new)>(b: Book<Key>, key: Key, oid: int)
    requires Inverse(b)
    ensures Inverse(Linked(b, key, oid)) <==>
            key in b.byKey ==> && (b.byKey[key].orderId.None? || b.byKey[key].orderId == Some(oid))
                               && (oid !in b.byOrderId || b.byOrderId[oid] == key)
  {
    var c := Linked(b, key, oid);
    if key in b.byKey && b.byKey[key].orderId.Some? && b.byKey[key].orderId.value != oid {
      assert b.byKey[key].orderId.value in c.byOrderId;
    }
    if key in b.byKey && oid in b.byOrderId && b.byOrderId[oid] != key {
      assert b.byOrderId[oid] in c.byKey;
    }
  }

  /** What goes wrong otherwise: after a relink, any terminal status of the old order takes the record
      of the new one, whose own id is left pointing at nothing. */
  lemma RelinkMisroutes<Key(!new)>(b: Book<Key>, key: Key, first: int, second: int, s: OrderStatus)
    requires Inverse(b) && key in b.byKey && b.byKey[key].orderId == Some(first) && first != second && IsTerminal(s)
    ensures var c := WithStatus(Linked(b, key, second), first, s);
            key !in c.byKey && second in c.byOrderId && c.byOrderId[second] == key
  {
  }

  /** A terminal status of a known id removes that one record, from both maps, and nothing else. */
  lemma TerminalRemovesOne<Key(!new)>(b: Book<Key>, oid: int, s: OrderStatus)
    requires Inverse(b) && oid in b.byOrderId && IsTerminal(s)
    ensures var c, key := WithStatus(b, oid, s), b.byOrderId[oid];
            && |c.byKey| == |b.byKey| - 1 && |c.byOrderId| == |b.byOrderId| - 1
            && key !in c.byKey && oid !in c.byOrderId
            && (forall k :: k in b.byKey && k != key ==> k in c.byKey && c.byKey[k] == b.byKey[k])
            && (forall o :: o in b.byOrderId && o != oid ==> o in c.byOrderId && c.byOrderId[o] == b.byOrderId[o])
  {
    RemoveOne(b.byKey, b.byOrderId[oid]);
    RemoveOne(b.byOrderId, oid);
  }

  lemma RemoveOne<A, B>(m: map<A, B>, a: A)
    requires a in m
    ensures |m - {a}| == |m| - 1
  {
    assert (m - {a}).Keys == m.Keys - {a};
    assert |(m - {a}).Keys| == |m.Keys| - 1;
  }

  lemma SetOne<A, B>(m: map<A, B>, a: A, v: B)
    ensures |m[a := v]| == if a in m then |m| else |m| + 1
  {
    assert m[a := v].Keys == m.Keys + {a};
    assert |m[a := v].Keys| == |m.Keys + {a}|;
  }

  // ---- Runs ----

  datatype Event<Key> =
    | Placed(key: Key, price: real, qty: nat, ns: nat)
    | Acked(key: Key, oid: int)
    | Reported(oid: int, status: OrderStatus)
    | CancelSent(key: Key)

  /** The book, every broker id ever acknowledged, and the removals no counter records. */
  datatype History<Key> = History(book: Book<Key>, acked: set<int>, superseded: nat, inactive: nat)

  function StepHistory<Key(==)>(h: History<Key>, e: Event<Key>): (g: History<Key>) {
    match e
    case Placed(key, price, qty, ns) =>
      h.(book := Upserted(h.book, key, price, qty, ns),
         superseded := h.superseded + if key in h.book.byKey then 1 else 0)
    case Acked(key, oid) => h.(book := Linked(h.book, key, oid), acked := h.acked + {oid})
    case Reported(oid, s) =>
      h.(book := WithStatus(h.book, oid, s),
         inactive := h.inactive +
           if s.Inactive? && oid in h.book.byOrderId && h.book.byOrderId[oid] in h.book.byKey then 1 else 0)
    case CancelSent(key) => h.(book := Cancelling(h.book, key))
  }

  function RunHistory<Key(==)>(events: seq<Event<Key>>): (h: History<Key>) {
    if events == [] then History(EmptyBook(), {}, 0, 0)
    else StepHistory(RunHistory(events[..|events| - 1]), events[|events| - 1])
  }

  /** Broker ids are fresh, and a record is linked at most once. */
  predicate Proper<Key(==)>(events: seq<Event<Key>>) {
    events == [] ||
    (var init, e := events[..|events| - 1], events[|events| - 1];
     && Proper(init)
     && (e.Acked? ==>
           && e.oid !in RunHistory(init).acked
           && (e.key in RunHistory(init).book.byKey ==> RunHistory(init).book.byKey[e.key].orderId.None?)))
  }

  ghost predicate HistoryInv<Key(!new)>(h: History<Key>) {
    && Inverse(h.book)
    && h.book.byOrderId.Keys <= h.acked
    && var c := h.book.counters;
       c.places == |h.book.byKey| + h.superseded + c.fills + c.cancels + c.rejects + h.inactive
  }

  lemma PlacedKeeps<Key(!new)>(h: History<Key>, key: Key, price: real, qty: nat, ns: nat)
    requires HistoryInv(h)
    ensures HistoryInv(StepHistory(h, Placed(key, price, qty, ns)))
  {
    UpsertKeepsInverse(h.book, key, price, qty, ns);
    SetOne(h.book.byKey, key, OrderRecord(None, price, qty, Pending, ns));
  }

  lemma AckedKeeps<Key(!new)>(h: History<Key>, key: Key, oid: int)
    requires HistoryInv(h) && oid !in h.acked && (key in h.book.byKey ==> h.book.byKey[key].orderId.None?)
    ensures HistoryInv(StepHistory(h, Acked(key, oid)))
  {
    LinkKeepsInverseIff(h.book, key, oid);
    if key in h.book.byKey {
      SetOne(h.book.byKey, key, h.book.byKey[key].(orderId := Some(oid)));
    }
  }

  /** A status removes a record exactly when it is terminal and its id known. */
  function Gone<Key(==)>(b: Book<Key>, oid: int, s: OrderStatus): (n: nat) {
    if IsTerminal(s) && oid in b.byOrderId && b.byOrderId[oid] in b.byKey then 1 else 0
  }

  lemma StatusSizes<Key(!new)>(b: Book<Key>, oid: int, s: OrderStatus)
    requires Inverse(b)
    ensures var c := WithStatus(b, oid, s);
            |c.byKey| + Gone(b, oid, s) == |b.byKey| && c.byOrderId.Keys <= b.byOrderId.Keys
  {
    if oid in b.byOrderId {
      if IsTerminal(s) {
        TerminalRemovesOne(b, oid, s);
      } else {
        var key := b.byOrderId[oid];
        SetOne(b.byKey, key, b.byKey[key].(state := StateAfter(s)));
      }
    }
  }

  function Ended(c: Counters): (n: nat) {
    c.fills + c.cancels + c.rejects
  }

  lemma StatusCounts<Key>(b: Book<Key>, oid: int, s: OrderStatus)
    ensures var c := WithStatus(b, oid, s);
            && c.counters.places == b.counters.places
            && Ended(c.counters) == Ended(b.counters) + if s.Inactive? then 0 else Gone(b, oid, s)
  {
  }

  lemma ReportedKeeps<Key(!new)>(h: History<Key>, oid: int, s: OrderStatus)
    requires HistoryInv(h)
    ensures HistoryInv(StepHistory(h, Reported(oid, s)))
  {
    hide Inverse, WithStatus;
    StatusKeepsInverse(h.book, oid, s);
    StatusSizes(h.book, oid, s);
    StatusCounts(h.book, oid, s);
  }

  lemma CancelSentKeeps<Key(!new)>(h: History<Key>, key: Key)
    requires HistoryInv(h)
    ensures HistoryInv(StepHistory(h, CancelSent(key)))
  {
    if key in h.book.byKey {
      SetOne(h.book.byKey, key, h.book.byKey[key].(state := OrderState.PendingCancel));
    }
  }

  lemma StepKeeps<Key(!new)>(h: History<Key>, e: Event<Key>)
    requires HistoryInv(h)
    requires e.Acked? ==> e.oid !in h.acked && (e.key in h.book.byKey ==> h.book.byKey[e.key].orderId.None?)
    ensures HistoryInv(StepHistory(h, e))
  {
    hide HistoryInv, StepHistory;
    match e
    case Placed(key, price, qty, ns) => PlacedKeeps(h, key, price, qty, ns);
    case Acked(key, oid) => AckedKeeps(h, key, oid);
    case Reported(oid, s) => ReportedKeeps(h, oid, s);
    case CancelSent(key) => CancelSentKeeps(h, key);
  }

  /** Over every proper run the maps stay inverse, and every placement is accounted for: still on
      the book, superseded, filled, cancelled, rejected or inactive. */
  lemma {:induction false} EveryRunKeeps<Key(!new)>(events: seq<Event<Key>>)
    requires Proper(events)
    ensures HistoryInv(RunHistory(events))
  {
    if events != [] {
      EveryRunKeeps(events[..|events| - 1]);
      StepKeeps(RunHistory(events[..|events| - 1]), events[|events| - 1]);
    }
  }

  /** Once an acknowledged id has left the index, by supersession or a terminal status, no later
      status for it changes anything. */
  lemma {:induction false} RetiredIdIsInert<Key(!new)>(
      events: seq<Event<Key>>, more: seq<Event<Key>>, oid: int, s: OrderStatus)
    requires Proper(events + more)
    requires oid in RunHistory(events).acked && oid !in RunHistory(events).book.byOrderId
    ensures var h := RunHistory(events + more);
            && oid in h.acked && oid !in h.book.byOrderId
            && WithStatus(h.book, oid, s) == h.book
    decreases |more|
  {
    if more == [] {
      assert events + more == events;
    } else {
      var init, last := more[..|more| - 1], more[|more| - 1];
      assert (events + more)[..|events + more| - 1] == events + init;
      assert (events + more)[|events + more| - 1] == last;
      RetiredIdIsInert(events, init, oid, s);
    }
  }

  /** Replacing a linked record retires its broker id. */
  lemma SupersededIsRetired<Key(!new)>(events: seq<Event<Key>>, key: Key, oid: int, price: real, qty: nat, ns: nat)
    requires Proper(events)
    requires key in RunHistory(events).book.byKey && RunHistory(events).book.byKey[key].orderId == Some(oid)
    ensures var h := RunHistory(events + [Placed(key, price, qty, ns)]);
            oid in h.acked && oid !in h.book.byOrderId && key in h.book.byKey && h.book.byKey[key].orderId == None
  {
    EveryRunKeeps(events);
    assert (events + [Placed(key, price, qty, ns)])[..|events|] == events;
  }

  // ---- What the counters count ----

  /** How often a status has been reported for an id that was then on the book. */
  function Reports<Key(==)>(events: seq<Event<Key>>, s: OrderStatus): (n: nat) {
    if events == [] then 0
    else
      var init, last := events[..|events| - 1], events[|events| - 1];
      Reports(init, s) +
      if last.Reported? && last.status == s && last.oid in RunHistory(init).book.byOrderId then 1 else 0
  }

  function Placements<Key>(events: seq<Event<Key>>): (n: nat) {
    if events == [] then 0 else Placements(events[..|events| - 1]) + if events[|events| - 1].Placed? then 1 else 0
  }

  function Acks<Key>(events: seq<Event<Key>>): (n: nat) {
    if events == [] then 0 else Acks(events[..|events| - 1]) + if events[|events| - 1].Acked? then 1 else 0
  }

  /** Over every proper run each counter is the number of its own events. */
  lemma {:induction false} CountersCount<Key(!new)>(events: seq<Event<Key>>)
    requires Proper(events)
    ensures var c := RunHistory(events).book.counters;
            && c.fills == Reports(events, Filled) && c.cancels == Reports(events, Cancelled)
            && c.rejects == Reports(events, Rejected) && c.places == Placements(events)
            && c.placeAcks == Acks(events)
  {
    if events != [] {
      var init, last := events[..|events| - 1], events[|events| - 1];
      CountersCount(init);
      EveryRunKeeps(init);
      StepCounters(RunHistory(init), last);
    }
  }

  lemma StepCounters<Key(!new)>(h: History<Key>, e: Event<Key>)
    requires HistoryInv(h)
    ensures var (c, d) := (h.book.counters, StepHistory(h, e).book.counters);
            var known := e.Reported? && e.oid in h.book.byOrderId;
            && d.fills == c.fills + (if known && e.status == Filled then 1 else 0)
            && d.cancels == c.cancels + (if known && e.status == Cancelled then 1 else 0)
            && d.rejects == c.rejects + (if known && e.status == Rejected then 1 else 0)
            && d.places == c.places + (if e.Placed? then 1 else 0)
            && d.placeAcks == c.placeAcks + (if e.Acked? then 1 else 0)
  {
  }

  // ---- Pending cancels ----

  /** An event that ends a pending cancel: a new placement at the key, or any status for the record's
      id, be it the one it had or one acknowledged since. */
  ghost predicate Disturbs<Key(!new)>(more: seq<Event<Key>>, j: nat, key: Key, id: Option<int>)
    requires j < |more|
  {
    || (more[j].Placed? && more[j].key == key)
    || (more[j].Reported? && (id == Some(more[j].oid) || Acked(key, more[j].oid) in more[..j]))
  }

  ghost predicate Undisturbed<Key(!new)>(more: seq<Event<Key>>, key: Key, id: Option<int>) {
    forall j :: 0 <= j < |more| ==> !Disturbs(more, j, key, id)
  }

  lemma UndisturbedSnoc<Key(!new)>(init: seq<Event<Key>>, last: Event<Key>, key: Key, id: Option<int>)
    ensures Undisturbed(init + [last], key, id) <==>
            && Undisturbed(init, key, id)
            && !(last.Placed? && last.key == key)
            && !(last.Reported? && (id == Some(last.oid) || Acked(key, last.oid) in init))
  {
    var all := init + [last];
    forall j | 0 <= j < |init| ensures Disturbs(all, j, key, id) <==> Disturbs(init, j, key, id) {
      assert all[..j] == init[..j];
    }
    assert all[..|init|] == init && all[|init|] == last;
    if Undisturbed(all, key, id) {
      assert !Disturbs(all, |init|, key, id);
      forall j | 0 <= j < |init| ensures !Disturbs(init, j, key, id) {
        assert !Disturbs(all, j, key, id);
      }
    }
  }

  predicate IsCancelling<Key(==)>(b: Book<Key>, key: Key) {
    key in b.byKey && b.byKey[key].state == OrderState.PendingCancel
  }

  /** The record's id is the one it had when the cancel was sent, or the one acknowledged since. */
  ghost predicate IdFrom<Key(!new)>(b: Book<Key>, more: seq<Event<Key>>, key: Key, id: Option<int>)
    requires key in b.byKey
  {
    forall o :: b.byKey[key].orderId == Some(o) <==> id == Some(o) || Acked(key, o) in more
  }

  lemma StillCancelling<Key(!new)>(h: History<Key>, init: seq<Event<Key>>, e: Event<Key>, key: Key, id: Option<int>)
    requires HistoryInv(h) && IsCancelling(h.book, key) && IdFrom(h.book, init, key, id)
    requires e.Acked? ==> e.oid !in h.acked && (e.key in h.book.byKey ==> h.book.byKey[e.key].orderId.None?)
    requires !(e.Placed? && e.key == key)
    requires !(e.Reported? && (id == Some(e.oid) || Acked(key, e.oid) in init))
    ensures IsCancelling(StepHistory(h, e).book, key) && IdFrom(StepHistory(h, e).book, init + [e], key, id)
  {
    if e.Reported? {
      assert h.book.byKey[key].orderId != Some(e.oid);
    }
  }

  lemma NoLongerCancelling<Key(!new)>(h: History<Key>, init: seq<Event<Key>>, e: Event<Key>, key: Key, id: Option<int>)
    requires HistoryInv(h) && IsCancelling(h.book, key) && IdFrom(h.book, init, key, id)
    requires (e.Placed? && e.key == key) || (e.Reported? && (id == Some(e.oid) || Acked(key, e.oid) in init))
    ensures !IsCancelling(StepHistory(h, e).book, key)
  {
    if e.Reported? {
      assert h.book.byKey[key].orderId == Some(e.oid);
    }
  }

  lemma NotCancellingStays<Key(!new)>(h: History<Key>, e: Event<Key>, key: Key)
    requires !IsCancelling(h.book, key) && e != CancelSent(key)
    ensures !IsCancelling(StepHistory(h, e).book, key)
  {
  }

  lemma RunStep<Key(!new)>(events: seq<Event<Key>>, e: Event<Key>)
    requires Proper(events + [e])
    ensures Proper(events) && RunHistory(events + [e]) == StepHistory(RunHistory(events), e)
    ensures e.Acked? ==>
              var h := RunHistory(events);
              e.oid !in h.acked && (e.key in h.book.byKey ==> h.book.byKey[e.key].orderId.None?)
  {
    assert (events + [e])[..|events|] == events;
  }

  /** Until the next cancel of the key, its record stays pending-cancel if and only if no placement at
      the key and no status for its id has come: any status at all, even one that says the cancel is
      pending, takes it back. */
  lemma {:induction false} PendingCancelStaysIff<Key(!new)>(events: seq<Event<Key>>, key: Key, more: seq<Event<Key>>)
    requires Proper(events + [CancelSent(key)] + more)
    requires key in RunHistory(events).book.byKey && CancelSent(key) !in more
    ensures var id := RunHistory(events).book.byKey[key].orderId;
            var b := RunHistory(events + [CancelSent(key)] + more).book;
            && (IsCancelling(b, key) <==> Undisturbed(more, key, id))
            && (IsCancelling(b, key) ==> IdFrom(b, more, key, id))
    decreases |more|
  {
    hide HistoryInv, IdFrom, Undisturbed, StepHistory, Proper, RunHistory;
    var id, sent := RunHistory(events).book.byKey[key].orderId, events + [CancelSent(key)];
    if more == [] {
      assert sent + more == sent;
      JustCancelled(events, key);
    } else {
      var init, last := more[..|more| - 1], more[|more| - 1];
      assert more == init + [last] && sent + more == (sent + init) + [last];
      RunStep(sent + init, last);
      PendingCancelStaysIff(events, key, init);
      UndisturbedSnoc(init, last, key, id);
      EveryRunKeeps(sent + init);
      var h := RunHistory(sent + init);
      if !IsCancelling(h.book, key) {
        NotCancellingStays(h, last, key);
      } else if Undisturbed(more, key, id) {
        StillCancelling(h, init, last, key, id);
      } else {
        NoLongerCancelling(h, init, last, key, id);
      }
    }
  }

  lemma JustCancelled<Key(!new)>(events: seq<Event<Key>>, key: Key)
    requires Proper(events + [CancelSent(key)]) && key in RunHistory(events).book.byKey
    ensures var id, b := RunHistory(events).book.byKey[key].orderId, RunHistory(events + [CancelSent(key)]).book;
            IsCancelling(b, key) && IdFrom(b, [], key, id) && Undisturbed([], key, id)
  {
    RunStep(events, CancelSent(key));
  }

  // ---- What a record holds until its next event ----

  /** Price, quantity, time and state of a record, its broker id aside. */
  ghost predicate Holds<Key(!new)>(b: Book<Key>, key: Key, r: OrderRecord) {
    key in b.byKey && b.byKey[key].(orderId := r.orderId) == r
  }

  lemma StillHolds<Key(!new)>(
      h: History<Key>, init: seq<Event<Key>>, e: Event<Key>, key: Key, id: Option<int>, r: OrderRecord)
    requires HistoryInv(h) && Holds(h.book, key, r) && IdFrom(h.book, init, key, id)
    requires e.Acked? ==> e.oid !in h.acked && (e.key in h.book.byKey ==> h.book.byKey[e.key].orderId.None?)
    requires !(e.Placed? && e.key == key) && e != CancelSent(key)
    requires !(e.Reported? && (id == Some(e.oid) || Acked(key, e.oid) in init))
    ensures Holds(StepHistory(h, e).book, key, r) && IdFrom(StepHistory(h, e).book, init + [e], key, id)
  {
    if e.Reported? {
      assert h.book.byKey[key].orderId != Some(e.oid);
    }
  }

  /** Over every proper run a record stays as it is, its broker id aside, until the next placement or
      cancel at its key or the next status for its id. */
  lemma {:induction false} RecordHolds<Key(!new)>(events: seq<Event<Key>>, key: Key, more: seq<Event<Key>>)
    requires Proper(events + more) && key in RunHistory(events).book.byKey
    requires CancelSent(key) !in more && Undisturbed(more, key, RunHistory(events).book.byKey[key].orderId)
    ensures var r := RunHistory(events).book.byKey[key];
            var b := RunHistory(events + more).book;
            Holds(b, key, r) && IdFrom(b, more, key, r.orderId)
    decreases |more|
  {
    hide HistoryInv, Undisturbed, StepHistory, Proper, RunHistory;
    var r := RunHistory(events).book.byKey[key];
    if more == [] {
      assert events + more == events;
    } else {
      var init, last := more[..|more| - 1], more[|more| - 1];
      assert more == init + [last] && events + more == (events + init) + [last];
      RunStep(events + init, last);
      UndisturbedSnoc(init, last, key, r.orderId);
      RecordHolds(events, key, init);
      EveryRunKeeps(events + init);
      hide Holds, IdFrom;
      StillHolds(RunHistory(events + init), init, last, key, r.orderId, r);
    }
  }

  /** A placement puts a pending record without a broker id at its key, with the given price, quantity
      and time, and it stays so until the key's next event. */
  lemma PlacementHolds<Key(!new)>(
      events: seq<Event<Key>>, key: Key, price: real, qty: nat, ns: nat, more: seq<Event<Key>>)
    requires Proper(events + [Placed(key, price, qty, ns)] + more)
    requires CancelSent(key) !in more && Undisturbed(more, key, None)
    ensures Holds(RunHistory(events + [Placed(key, price, qty, ns)] + more).book, key,
                  OrderRecord(None, price, qty, Pending, ns))
  {
    var placed := events + [Placed(key, price, qty, ns)];
    ProperPrefix(placed, more);
    RunStep(events, Placed(key, price, qty, ns));
    RecordHolds(placed, key, more);
  }

  /** A status for a record's id that does not end the order sets its state, live when submitted and
      pending otherwise, and it stays so until the key's next event. */
  lemma StatusHolds<Key(!new)>(events: seq<Event<Key>>, oid: int, s: OrderStatus, more: seq<Event<Key>>)
    requires Proper(events + [Reported(oid, s)] + more) && oid in RunHistory(events).book.byOrderId
    requires s in {Submitted, PendingSubmit, OrderStatus.PendingCancel}
    requires var key := RunHistory(events).book.byOrderId[oid];
             CancelSent(key) !in more && Undisturbed(more, key, Some(oid))
    ensures var b, key := RunHistory(events).book, RunHistory(events).book.byOrderId[oid];
            && key in b.byKey
            && Holds(RunHistory(events + [Reported(oid, s)] + more).book, key,
                     b.byKey[key].(state := if s == Submitted then Live else Pending))
  {
    var reported, key := events + [Reported(oid, s)], RunHistory(events).book.byOrderId[oid];
    ProperPrefix(reported, more);
    RunStep(events, Reported(oid, s));
    EveryRunKeeps(events);
    RecordHolds(reported, key, more);
  }

  lemma {:induction false} ProperPrefix<Key(!new)>(events: seq<Event<Key>>, more: seq<Event<Key>>)
    requires Proper(events + more)
    ensures Proper(events)
    decreases |more|
  {
    if more == [] {
      assert events + more == events;
    } else {
      var init := more[..|more| - 1];
      assert (events + more)[..|events + more| - 1] == events + init;
      ProperPrefix(events, init);
    }
  }
}
