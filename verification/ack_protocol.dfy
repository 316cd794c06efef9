/**
 Acknowledgement of placed orders: callers that wait, a dispatcher that resolves them from inbound
 messages, and disconnect, all sharing the map of pending waiters. Each locked region is one step;
 handing the resolved sender its result is a step of its own, as it happens after the lock is gone.
 */
module AckProtocol {
  import opened BrokerTypes
  import opened Wrappers

  function ParseStatus(text: string): (s: OrderStatus) {
    if text in {"PendingSubmit", "ApiPending", "PreSubmitted"} then PendingSubmit
    else if text == "Submitted" then Submitted
    else if text == "Filled" then Filled
    else if text in {"Cancelled", "ApiCancelled"} then Cancelled
    else if text == "PendingCancel" then PendingCancel
    else Inactive
  }

  predicate AcksPlacement(s: OrderStatus) {
    s in {Submitted, Filled, Cancelled, PendingCancel}
  }

  predicate IsOrderError(code: int) {
    code in {201, 203, 434, 436, 10148, 10197}
  }

  /** What the dispatcher and disconnect act on, in the order they hold the lock. */
  datatype Event =
    | OpenOrder(id: int)
    | Status(id: int, text: string)
    | Error(reqId: int, code: int)
    | Disconnect

  datatype Outcome =
    | Success | OrderRejected | ConnectionLost
    | Timeout | SendFailed | InvalidParams | ChannelDropped

  /** The result an event carries for an order id, if it is one that resolves that order's waiter. */
  function Resolves(e: Event, id: int): (r: Option<Outcome>) {
    match e
    case OpenOrder(i) => if i == id then Some(Success) else None
    case Status(i, text) => if i == id && AcksPlacement(ParseStatus(text)) then Some(Success) else None
    case Error(i, code) => if i > 0 && i == id && IsOrderError(code) then Some(OrderRejected) else None
    case Disconnect => Some(ConnectionLost)
  }

  /** The result of the first resolving event for `id` at or after position `from`. */
  function FirstMatch(log: seq<Event>, from: nat, id: int): (r: Option<Outcome>)
    ensures r.Some? ==> r.value in {Success, OrderRejected, ConnectionLost}
  {
    if |log| <= from then None
    else
      var earlier := FirstMatch(log[..|log| - 1], from, id);
      if earlier.Some? then earlier else Resolves(log[|log| - 1], id)
  }

  /** The messages that accept an order, by the gateway's own words. */
  predicate Accepts(e: Event, id: int) {
    || e == OpenOrder(id)
    || (e.Status? && e.id == id && e.text in {"Submitted", "Filled", "Cancelled", "ApiCancelled", "PendingCancel"})
  }

  predicate Refuses(e: Event, id: int) {
    e.Error? && e.reqId == id && id > 0 && e.code in {201, 203, 434, 436, 10148, 10197}
  }

  predicate Settles(e: Event, id: int) {
    Accepts(e, id) || Refuses(e, id) || e.Disconnect?
  }

  /** The i-th event is the first, from a position on, to settle an order. */
  ghost predicate IsFirst(log: seq<Event>, from: nat, id: int, i: nat) {
    from <= i < |log| && Settles(log[i], id) && forall j :: from <= j < i ==> !Settles(log[j], id)
  }

  /** Where a caller stands: id allocated; waiter installed; frame sent and waiting; send failed or
      timer fired with the waiter still to be removed; returned. */
  datatype Pc = Allocated | Installed | Sent | SendError | Expired | Done(outcome: Outcome)

  /** The one-shot channel. */
  datatype Slot = Empty | Full(outcome: Outcome) | Closed

  datatype Call = Call(id: int, pc: Pc, slot: Slot, since: nat)

  datatype State = State(
    next: int, calls: seq<Call>, pending: map<int, nat>, inFlight: Option<(nat, Outcome)>, log: seq<Event>)

  datatype SendResult = BadParams | SendOk | SendErr

  datatype Action =
    | Announce(oid: int) | Allocate
    | Install(k: nat) | Send(k: nat, result: SendResult) | Receive(k: nat) | Timer(k: nat) | Cleanup(k: nat)
    | Dispatch(e: Event) | Deliver | Drain

  const START := State(0, [], map[], None, [])

  function SetSlot(calls: seq<Call>, k: nat, slot: Slot): (out: seq<Call>)
    ensures |out| == |calls|
  {
    if k < |calls| && calls[k].slot.Empty? then calls[k := calls[k].(slot := slot)] else calls
  }

  /** Registering a sender under an id drops any sender that was there. */
  function DoInstall(s: State, k: nat): (t: State)
    requires k < |s.calls|
  {
    var id := s.calls[k].id;
    var calls := if id in s.pending then SetSlot(s.calls, s.pending[id], Closed) else s.calls;
    s.(calls := calls[k := calls[k].(pc := Installed, since := |s.log|)], pending := s.pending[id := k])
  }

  function SetPc(s: State, k: nat, pc: Pc): (t: State)
    requires k < |s.calls|
  {
    s.(calls := s.calls[k := s.calls[k].(pc := pc)])
  }

  /** An inbound message: the matching waiter, if any, leaves the map. */
  function DoDispatch(s: State, e: Event): (t: State) {
    var id := match e case OpenOrder(i) => i case Status(i, _) => i case Error(i, _) => i case Disconnect => 0;
    var r := Resolves(e, id);
    if r.Some? && id in s.pending then
      s.(log := s.log + [e], pending := s.pending - {id}, inFlight := Some((s.pending[id], r.value)))
    else s.(log := s.log + [e])
  }

  predicate Registered(s: State, k: nat)
    requires k < |s.calls|
  {
    s.calls[k].id in s.pending && s.pending[s.calls[k].id] == k
  }

  /** Disconnect drains the map and sends while still holding the lock. */
  function DoDrain(s: State): (t: State) {
    s.(log := s.log + [Disconnect], pending := map[],
       calls := seq(|s.calls|, k requires 0 <= k < |s.calls| =>
                      if Registered(s, k) && s.calls[k].slot.Empty? then s.calls[k].(slot := Full(ConnectionLost))
                      else s.calls[k]))
  }

  function DoCleanup(s: State, k: nat): (t: State)
    requires k < |s.calls|
  {
    var c := s.calls[k];
    if c.pc.SendError? then SetPc(s, k, Done(SendFailed)).(pending := s.pending - {c.id})
    else if c.pc.Expired? then SetPc(s, k, Done(Timeout)).(pending := s.pending - {c.id})
    else s
  }

  function StepCall(s: State, a: Action, k: nat): (t: State)
    requires k < |s.calls|
  {
    var c := s.calls[k];
    match a
    case Install(_) => if c.pc.Allocated? then DoInstall(s, k) else s
    case Send(_, result) =>
      if !c.pc.Installed? then s
      else (match result
            case BadParams => SetPc(s, k, Done(InvalidParams))
            case SendOk => SetPc(s, k, Sent)
            case SendErr => SetPc(s, k, SendError))
    case Receive(_) =>
      if !c.pc.Sent? then s
      else (match c.slot
            case Empty => s
            case Full(outcome) => SetPc(s, k, Done(outcome))
            case Closed => SetPc(s, k, Done(ChannelDropped)))
    case Timer(_) => if c.pc.Sent? && c.slot.Empty? then SetPc(s, k, Expired) else s
    case Cleanup(_) => DoCleanup(s, k)
    case _ => s
  }

  function Step(s: State, a: Action): (t: State) {
    match a
    case Announce(oid) => if oid > s.next then s.(next := oid) else s
    case Allocate =>
      if s.next <= 0 then s else s.(next := s.next + 1, calls := s.calls + [Call(s.next, Allocated, Empty, 0)])
    case Dispatch(e) => if s.inFlight.None? && !e.Disconnect? then DoDispatch(s, e) else s
    case Deliver =>
      if s.inFlight.None? then s
      else s.(calls := SetSlot(s.calls, s.inFlight.value.0, Full(s.inFlight.value.1)), inFlight := None)
    case Drain => DoDrain(s)
    case _ => if a.k < |s.calls| then StepCall(s, a, a.k) else s
  }

  function Run(s: State, schedule: seq<Action>): (t: State) {
    if schedule == [] then s
    else Step(Run(s, schedule[..|schedule| - 1]), schedule[|schedule| - 1])
  }

  // ---- Invariant ----

  function Match(s: State, k: nat): (r: Option<Outcome>)
    requires k < |s.calls|
  {
    FirstMatch(s.log, s.calls[k].since, s.calls[k].id)
  }

  predicate Flying(s: State, k: nat) {
    s.inFlight.Some? && s.inFlight.value.0 == k
  }

  /** What is true of one call: its sender is in exactly one place, and that place says whether and
      how its first matching event has come. */
  ghost predicate CallOk(s: State, k: nat)
    requires k < |s.calls|
  {
    var c := s.calls[k];
    && 0 < c.id < s.next && c.since <= |s.log|
    && (c.pc.Allocated? ==> c.slot.Empty? && !Registered(s, k) && !Flying(s, k))
    && (Registered(s, k) ==> c.slot.Empty? && !Flying(s, k) && Match(s, k).None?)
    && (Flying(s, k) ==> c.slot.Empty? && Match(s, k) == Some(s.inFlight.value.1))
    && !c.slot.Closed?
    && (c.slot.Full? ==> Match(s, k) == Some(c.slot.outcome))
    && (c.pc in {Installed, Sent, SendError, Expired, Done(InvalidParams)} && Match(s, k).None? ==> Registered(s, k))
    && (c.pc in {Installed, Sent} && Match(s, k).Some? ==> Flying(s, k) || c.slot.Full?)
    && (c.pc.Done? ==> match c.pc.outcome
                       case Success | OrderRejected | ConnectionLost => Match(s, k) == Some(c.pc.outcome)
                       case Timeout | SendFailed => !Registered(s, k)
                       case InvalidParams => true
                       case ChannelDropped => false)
  }

  ghost predicate Inv(s: State) {
    && (forall k :: 0 <= k < |s.calls| ==> CallOk(s, k))
    && (forall j, k :: 0 <= j < k < |s.calls| ==> s.calls[j].id != s.calls[k].id)
    && (forall id :: id in s.pending ==> s.pending[id] < |s.calls| && s.calls[s.pending[id]].id == id)
    && (s.inFlight.Some? ==> s.inFlight.value.0 < |s.calls|)
  }

  lemma MatchAppend(log: seq<Event>, from: nat, id: int, e: Event)
    ensures FirstMatch(log + [e], from, id) ==
            if FirstMatch(log, from, id).Some? then FirstMatch(log, from, id)
            else if from <= |log| then Resolves(e, id) else None
  {
    assert (log + [e])[..|log|] == log;
  }

  lemma ResolvesMeans(e: Event, id: int)
    ensures Resolves(e, id).Some? <==> Settles(e, id)
    ensures Accepts(e, id) ==> Resolves(e, id) == Some(Success)
    ensures Refuses(e, id) ==> Resolves(e, id) == Some(OrderRejected)
    ensures e.Disconnect? ==> Resolves(e, id) == Some(ConnectionLost)
  {
  }

  lemma DispatchKeeps(s: State, e: Event)
    requires Inv(s) && s.inFlight.None? && !e.Disconnect?
    ensures Inv(DoDispatch(s, e))
  {
    hide FirstMatch;
    var t := DoDispatch(s, e);
    forall k | 0 <= k < |t.calls| ensures CallOk(t, k) {
      assert CallOk(s, k);
      MatchAppend(s.log, s.calls[k].since, s.calls[k].id, e);
    }
  }

  /** A message takes out of the map exactly the waiters of the orders it settles, of which there is
      at most one; that one's result is the one the message carries; and no channel is touched yet. */
  lemma DispatchResolvesOne(s: State, e: Event)
    requires s.inFlight.None? && !e.Disconnect?
    ensures var t := DoDispatch(s, e);
            && t.calls == s.calls && t.log == s.log + [e]
            && (forall id :: id in t.pending <==> id in s.pending && !Settles(e, id))
            && (forall id :: id in t.pending ==> t.pending[id] == s.pending[id])
            && (forall id :: id in s.pending && Accepts(e, id) ==> t.inFlight == Some((s.pending[id], Success)))
            && (forall id :: id in s.pending && Refuses(e, id) ==> t.inFlight == Some((s.pending[id], OrderRejected)))
            && (t.inFlight.Some? ==> exists id :: id in s.pending && Settles(e, id))
  {
    forall id ensures Resolves(e, id).Some? <==> Settles(e, id) {
      ResolvesMeans(e, id);
    }
  }

  lemma DrainKeeps(s: State)
    requires Inv(s)
    ensures Inv(DoDrain(s))
  {
    var t := DoDrain(s);
    forall k | 0 <= k < |t.calls| ensures CallOk(t, k) {
      assert CallOk(s, k);
      MatchAppend(s.log, s.calls[k].since, s.calls[k].id, Disconnect);
    }
  }

  /** Disconnect empties the map, fills exactly the registered waiters' channels, all of them empty
      until then, and leaves everything else of every call as it was. */
  lemma DrainResolvesAll(s: State)
    requires Inv(s)
    ensures var t := DoDrain(s);
            && t.pending == map[] && t.inFlight == s.inFlight && |t.calls| == |s.calls|
            && (forall k :: 0 <= k < |s.calls| ==>
                  t.calls[k] == if Registered(s, k) then s.calls[k].(slot := Full(ConnectionLost)) else s.calls[k])
            && (forall k :: 0 <= k < |s.calls| && Registered(s, k) ==> s.calls[k].slot.Empty?)
            && (forall id :: id in s.pending ==> s.pending[id] < |s.calls| && Registered(s, s.pending[id]))
  {
    forall k | 0 <= k < |s.calls| && Registered(s, k) ensures s.calls[k].slot.Empty? {
      assert CallOk(s, k);
    }
  }

  lemma InstallKeeps(s: State, k: nat)
    requires Inv(s) && k < |s.calls| && s.calls[k].pc.Allocated?
    ensures Inv(DoInstall(s, k))
  {
    assert CallOk(s, k);
    assert s.calls[k].id !in s.pending;
    var t := DoInstall(s, k);
    forall j | 0 <= j < |t.calls| ensures CallOk(t, j) {
      assert CallOk(s, j);
    }
  }

  lemma DeliverKeeps(s: State)
    requires Inv(s)
    ensures Inv(Step(s, Deliver))
  {
    var t := Step(s, Deliver);
    forall k | 0 <= k < |t.calls| ensures CallOk(t, k) {
      assert CallOk(s, k);
    }
  }

  /** Moving one call's program counter concerns that call alone. */
  lemma SetPcKeeps(s: State, k: nat, pc: Pc)
    requires Inv(s) && k < |s.calls| && CallOk(SetPc(s, k, pc), k)
    ensures Inv(SetPc(s, k, pc))
  {
    var t := SetPc(s, k, pc);
    forall j | 0 <= j < |t.calls| ensures CallOk(t, j) {
      assert CallOk(s, j);
    }
  }

  lemma CleanupKeeps(s: State, k: nat)
    requires Inv(s) && k < |s.calls|
    ensures Inv(DoCleanup(s, k))
  {
    var t := DoCleanup(s, k);
    forall j | 0 <= j < |t.calls| ensures CallOk(t, j) {
      assert CallOk(s, j);
    }
  }

  lemma CallStepKeeps(s: State, a: Action, k: nat)
    requires Inv(s) && k < |s.calls|
    ensures Inv(StepCall(s, a, k))
  {
    assert CallOk(s, k);
    var c := s.calls[k];
    match a
    case Install(_) => if c.pc.Allocated? { InstallKeeps(s, k); }
    case Send(_, result) =>
      if c.pc.Installed? {
        var pc := match result case BadParams => Done(InvalidParams) case SendOk => Sent case SendErr => SendError;
        SetPcKeeps(s, k, pc);
      }
    case Receive(_) => if c.pc.Sent? && c.slot.Full? { SetPcKeeps(s, k, Done(c.slot.outcome)); }
    case Timer(_) => if c.pc.Sent? && c.slot.Empty? { SetPcKeeps(s, k, Expired); }
    case Cleanup(_) => CleanupKeeps(s, k);
    case _ =>
  }

  lemma AllocateKeeps(s: State)
    requires Inv(s)
    ensures Inv(Step(s, Allocate))
  {
    var t := Step(s, Allocate);
    forall k | 0 <= k < |t.calls| ensures CallOk(t, k) {
      if k < |s.calls| { assert CallOk(s, k); }
    }
    forall j, k | 0 <= j < k < |t.calls| ensures t.calls[j].id != t.calls[k].id {
      assert CallOk(s, j);
    }
  }

  lemma StepKeeps(s: State, a: Action)
    requires Inv(s)
    ensures Inv(Step(s, a))
  {
    match a
    case Announce(oid) =>
      var t := Step(s, a);
      forall k | 0 <= k < |t.calls| ensures CallOk(t, k) { assert CallOk(s, k); }
    case Allocate => AllocateKeeps(s);
    case Dispatch(e) => if s.inFlight.None? && !e.Disconnect? { DispatchKeeps(s, e); }
    case Deliver => DeliverKeeps(s);
    case Drain => DrainKeeps(s);
    case _ => if a.k < |s.calls| { CallStepKeeps(s, a, a.k); }
  }

  lemma {:induction false} RunKeeps(schedule: seq<Action>)
    ensures Inv(Run(START, schedule))
  {
    if schedule != [] {
      RunKeeps(schedule[..|schedule| - 1]);
      StepKeeps(Run(START, schedule[..|schedule| - 1]), schedule[|schedule| - 1]);
    }
  }

  // ---- Results ----

  /** In every run, a caller told success, rejection or connection loss was told it by the first
      event matching its order id since its waiter was installed; no channel is ever dropped; and a
      waiter outlives its caller only when the parameters were refused and no matching event has
      come since. */
  lemma OutcomeIsFirstMatch(schedule: seq<Action>, k: nat)
    requires k < |Run(START, schedule).calls| && Run(START, schedule).calls[k].pc.Done?
    ensures var s := Run(START, schedule);
            var outcome := s.calls[k].pc.outcome;
            && (outcome in {Success, OrderRejected, ConnectionLost} ==> Match(s, k) == Some(outcome))
            && outcome != ChannelDropped
            && (Registered(s, k) <==> outcome == InvalidParams && Match(s, k).None?)
  {
    RunKeeps(schedule);
    assert CallOk(Run(START, schedule), k);
  }

  /** There is a first match exactly when some event settles the order, and its result is success,
      rejection or connection loss as that event accepts, refuses or disconnects. */
  lemma {:induction false} FirstMatchMeans(log: seq<Event>, from: nat, id: int)
    ensures FirstMatch(log, from, id).None? <==> forall i :: from <= i < |log| ==> !Settles(log[i], id)
    ensures forall i: nat :: IsFirst(log, from, id, i) ==>
              && (FirstMatch(log, from, id) == Some(Success) <==> Accepts(log[i], id))
              && (FirstMatch(log, from, id) == Some(OrderRejected) <==> Refuses(log[i], id))
              && (FirstMatch(log, from, id) == Some(ConnectionLost) <==> log[i].Disconnect?)
  {
    if |log| > from {
      var init, last := log[..|log| - 1], log[|log| - 1];
      FirstMatchMeans(init, from, id);
      assert Resolves(last, id).Some? <==> Settles(last, id);
      forall i: nat | IsFirst(log, from, id, i) && i < |init| ensures IsFirst(init, from, id, i) {
        forall j | from <= j < i ensures !Settles(init[j], id) { assert init[j] == log[j]; }
      }
      forall i | from <= i < |init| ensures init[i] == log[i] {
      }
    }
  }

  lemma {:induction false} FirstSettling(log: seq<Event>, from: nat, id: int) returns (i: nat)
    requires FirstMatch(log, from, id).Some?
    ensures IsFirst(log, from, id, i)
  {
    var init := log[..|log| - 1];
    if FirstMatch(init, from, id).Some? {
      i := FirstSettling(init, from, id);
      forall j | from <= j < i ensures !Settles(log[j], id) { assert init[j] == log[j]; }
    } else {
      i := |log| - 1;
      FirstMatchMeans(init, from, id);
      forall j | from <= j < i ensures !Settles(log[j], id) { assert init[j] == log[j]; }
    }
  }

  /** In every run, behind a success there is an accepting message for the order, behind a rejection
      a refusing one, behind a connection loss a disconnect; it came after the waiter was installed,
      and nothing that settles the order came between. */
  lemma OutcomeHasCause(schedule: seq<Action>, k: nat) returns (i: nat)
    requires k < |Run(START, schedule).calls| && Run(START, schedule).calls[k].pc.Done?
    requires Run(START, schedule).calls[k].pc.outcome in {Success, OrderRejected, ConnectionLost}
    ensures var s := Run(START, schedule);
            var c := s.calls[k];
            && IsFirst(s.log, c.since, c.id, i)
            && (c.pc.outcome == Success <==> Accepts(s.log[i], c.id))
            && (c.pc.outcome == OrderRejected <==> Refuses(s.log[i], c.id))
            && (c.pc.outcome == ConnectionLost <==> s.log[i].Disconnect?)
  {
    OutcomeIsFirstMatch(schedule, k);
    var s := Run(START, schedule);
    i := FirstSettling(s.log, s.calls[k].since, s.calls[k].id);
    FirstMatchMeans(s.log, s.calls[k].since, s.calls[k].id);
  }

  /** One step never changes what a caller was told, what its channel holds, or its first match. */
  lemma StepSettles(s: State, a: Action, k: nat)
    requires Inv(s) && k < |s.calls|
    ensures var t := Step(s, a);
            && k < |t.calls| && t.calls[k].id == s.calls[k].id
            && (s.calls[k].pc.Done? ==> t.calls[k].pc == s.calls[k].pc)
            && (s.calls[k].slot.Full? ==> t.calls[k].slot == s.calls[k].slot)
            && (!s.calls[k].pc.Allocated? ==> t.calls[k].since == s.calls[k].since && !t.calls[k].pc.Allocated?)
            && (!s.calls[k].pc.Allocated? && Match(s, k).Some? ==> Match(t, k) == Match(s, k))
  {
    hide FirstMatch;
    assert CallOk(s, k);
    match a
    case Dispatch(e) => MatchAppend(s.log, s.calls[k].since, s.calls[k].id, e);
    case Drain => MatchAppend(s.log, s.calls[k].since, s.calls[k].id, Disconnect);
    case Install(j) =>
      if j < |s.calls| { assert CallOk(s, j); }
    case _ =>
  }

  /** Later messages, timers and disconnects cannot change an outcome or resolve a waiter again. */
  lemma {:induction false} ResolvedOnce(schedule: seq<Action>, more: seq<Action>, k: nat)
    requires k < |Run(START, schedule).calls|
    ensures var s, t := Run(START, schedule), Run(START, schedule + more);
            && k < |t.calls|
            && (s.calls[k].pc.Done? ==> t.calls[k].pc == s.calls[k].pc)
            && (s.calls[k].slot.Full? ==> t.calls[k].slot == s.calls[k].slot)
            && (!s.calls[k].pc.Allocated? ==> t.calls[k].since == s.calls[k].since && !t.calls[k].pc.Allocated?)
            && (!s.calls[k].pc.Allocated? && Match(s, k).Some? ==> Match(t, k) == Match(s, k))
    decreases |more|
  {
    if more == [] {
      assert schedule + more == schedule;
    } else {
      var init, last := more[..|more| - 1], more[|more| - 1];
      assert schedule + more == (schedule + init) + [last];
      assert (schedule + more)[..|schedule + more| - 1] == schedule + init;
      ResolvedOnce(schedule, init, k);
      RunKeeps(schedule + init);
      StepSettles(Run(START, schedule + init), last, k);
    }
  }

  /** A caller still waiting when its match has come gets exactly that result at its next look,
      once the dispatcher has finished its send. */
  lemma MatchIsReceived(s: State, k: nat)
    requires Inv(s) && k < |s.calls| && s.calls[k].pc.Sent? && Match(s, k).Some?
    ensures var t := Step(Step(s, Deliver), Receive(k));
            k < |t.calls| && t.calls[k].pc == Done(Match(s, k).value)
  {
    assert CallOk(s, k);
    if s.inFlight.Some? {
      assert CallOk(s, s.inFlight.value.0);
    }
  }

  /** The gateway's "PreSubmitted" leaves a placement unacknowledged, since it parses as pending. */
  lemma PreSubmittedDoesNotAck(id: int, other: int)
    ensures ParseStatus("PreSubmitted") == PendingSubmit
    ensures Resolves(Status(id, "PreSubmitted"), other) == None
    ensures Resolves(Status(id, "Submitted"), id) == Some(Success)
  {
  }

  // ---- What the steps do, from the outside ----

  /** An idle dispatcher handles every message it is given, and a busy one none; disconnect is handled
      at any time. */
  lemma EventsAreHandled(s: State, e: Event)
    requires !e.Disconnect?
    ensures Step(s, Dispatch(e)).log == s.log + (if s.inFlight.None? then [e] else [])
    ensures Step(s, Drain).log == s.log + [Disconnect]
  {
  }

  ghost predicate Waits(s: State, k: nat) {
    k < |s.calls| && s.calls[k].pc.Sent? && Registered(s, k)
  }

  /** A waiting caller returns success after any message that accepts its order, and rejection after
      any that refuses it, as soon as the dispatcher has sent and the caller looked; after any other
      message it waits on, still registered. */
  lemma MessageReturns(s: State, k: nat, e: Event)
    requires Inv(s) && s.inFlight.None? && Waits(s, k) && !e.Disconnect?
    ensures var t := Step(Step(Step(s, Dispatch(e)), Deliver), Receive(k));
            var id := s.calls[k].id;
            && k < |t.calls|
            && (Accepts(e, id) ==> t.calls[k].pc == Done(Success) && id !in t.pending)
            && (Refuses(e, id) ==> t.calls[k].pc == Done(OrderRejected) && id !in t.pending)
            && (!Settles(e, id) ==> Waits(t, k))
  {
    assert CallOk(s, k);
    var id, dispatched := s.calls[k].id, DoDispatch(s, e);
    assert Step(s, Dispatch(e)) == dispatched;
    DispatchResolvesOne(s, e);
    ResolvesMeans(e, id);
    if Settles(e, id) {
      assert dispatched.inFlight == Some((k, if Accepts(e, id) then Success else OrderRejected));
    } else {
      OtherWaiterDelivered(s, k, e);
    }
  }

  /** Delivering to someone else leaves a caller alone. */
  lemma OtherWaiterDelivered(s: State, k: nat, e: Event)
    requires Inv(s) && s.inFlight.None? && Waits(s, k) && !e.Disconnect? && !Settles(e, s.calls[k].id)
    ensures var t := Step(DoDispatch(s, e), Deliver); Waits(t, k) && t.calls[k].slot.Empty?
  {
    DispatchKeeps(s, e);
    DispatchResolvesOne(s, e);
    var t := DoDispatch(s, e);
    assert CallOk(s, k) && CallOk(t, k);
    assert Registered(t, k);
  }

  /** And connection loss after a disconnect. */
  lemma DisconnectReturns(s: State, k: nat)
    requires Inv(s) && Waits(s, k)
    ensures var t := Step(Step(s, Drain), Receive(k));
            k < |t.calls| && t.calls[k].pc == Done(ConnectionLost) && s.calls[k].id !in t.pending
  {
    DrainResolvesAll(s);
  }

  /** A call that nothing interrupts: its id is the counter, which moves on; its waiter is registered
      from the present position on before anything is sent; refused parameters return at once and
      leave the waiter; a sent frame leaves the caller waiting; a failed send takes the waiter away. */
  lemma CallSteps(s: State, result: SendResult)
    requires Inv(s) && s.next > 0
    ensures var k, id := |s.calls|, s.next;
            var t := Step(Step(Step(s, Allocate), Install(k)), Send(k, result));
            && t.next == id + 1 && |t.calls| == k + 1 && t.calls[..k] == s.calls
            && t.log == s.log && t.inFlight == s.inFlight && t.pending == s.pending[id := k]
            && t.calls[k] == Call(id, match result
                                      case BadParams => Done(InvalidParams)
                                      case SendOk => Sent
                                      case SendErr => SendError, Empty, |s.log|)
            && (result.SendErr? ==>
                  var u := Step(t, Cleanup(k));
                  k < |u.calls| && u.calls[k].pc == Done(SendFailed) && u.pending == s.pending)
  {
    var k, id := |s.calls|, s.next;
    forall i | i in s.pending ensures i < s.next {
      assert CallOk(s, s.pending[i]);
    }
    var a := Step(s, Allocate);
    assert a == s.(next := id + 1, calls := s.calls + [Call(id, Allocated, Empty, 0)]);
    var b := Step(a, Install(k));
    assert b == a.(calls := s.calls + [Call(id, Installed, Empty, |s.log|)], pending := s.pending[id := k]);
    assert s.pending[id := k] - {id} == s.pending;
  }

  /** A timer that fires on a waiting caller, and is not overtaken, returns a timeout and takes the
      waiter away. */
  lemma TimerReturns(s: State, k: nat)
    requires Inv(s) && Waits(s, k)
    ensures var t := Step(Step(s, Timer(k)), Cleanup(k));
            k < |t.calls| && t.calls[k].pc == Done(Timeout) && t.pending == s.pending - {s.calls[k].id}
  {
    assert CallOk(s, k);
  }

  // ---- Callers that report a failure although a match has come ----

  /** What no step undoes for a call that has been installed: its id, its starting position, and the
      events already handled. */
  ghost predicate Later(s: State, t: State, k: nat) {
    && k < |s.calls| <= |t.calls|
    && t.calls[k].id == s.calls[k].id && t.calls[k].since == s.calls[k].since
    && s.log <= t.log
  }

  lemma StepIsLater(s: State, a: Action, k: nat)
    requires Inv(s) && k < |s.calls| && !s.calls[k].pc.Allocated?
    ensures Later(s, Step(s, a), k)
  {
    StepSettles(s, a, k);
  }

  ghost predicate SettledSince(s: State, t: State, k: nat)
    requires Later(s, t, k)
  {
    exists i :: |s.log| <= i < |t.log| && Settles(t.log[i], t.calls[k].id)
  }

  /** Between two moments a call gains a match exactly when an event settles its order. */
  lemma MatchGained(s: State, t: State, k: nat)
    requires Later(s, t, k) && s.calls[k].since <= |s.log|
    ensures Match(t, k).Some? <==> Match(s, k).Some? || SettledSince(s, t, k)
  {
    FirstMatchMeans(s.log, s.calls[k].since, s.calls[k].id);
    FirstMatchMeans(t.log, t.calls[k].since, t.calls[k].id);
    assert forall i :: 0 <= i < |s.log| ==> t.log[i] == s.log[i];
  }

  /** When the timer fires on a caller that still waits, its match has come exactly when the result
      is on its way from the dispatcher. */
  lemma AtTimer(s: State, k: nat)
    requires Inv(s) && k < |s.calls| && s.calls[k].pc.Sent? && s.calls[k].slot.Empty?
    ensures Match(s, k).Some? <==> Flying(s, k)
  {
    assert CallOk(s, k);
  }

  /** When a send fails, it has come exactly when the result is on its way or already in the channel. */
  lemma AtSendError(s: State, k: nat)
    requires Inv(s) && k < |s.calls| && s.calls[k].pc.Installed?
    ensures Match(s, k).Some? <==> Flying(s, k) || s.calls[k].slot.Full?
  {
    assert CallOk(s, k);
  }

  /** The step by which a call gave up, and the states on both sides of the wait for clean-up. */
  ghost predicate GaveUp(schedule: seq<Action>, k: nat, n: nat, a: Action) {
    n < |schedule| && schedule[n] == a && Later(Run(START, schedule[..n]), Run(START, schedule), k)
  }

  lemma GaveUpEarlier(schedule: seq<Action>, last: Action, k: nat, n: nat, a: Action)
    requires GaveUp(schedule, k, n, a) && Later(Run(START, schedule), Run(START, schedule + [last]), k)
    ensures GaveUp(schedule + [last], k, n, a) && (schedule + [last])[..n] == schedule[..n]
  {
    assert (schedule + [last])[..n] == schedule[..n];
  }

  lemma BecomesExpired(s: State, a: Action, k: nat)
    requires Inv(s) && k < |Step(s, a).calls| && Step(s, a).calls[k].pc.Expired?
    requires k < |s.calls| ==> !s.calls[k].pc.Expired?
    ensures a == Timer(k) && Later(s, Step(s, a), k) && s.calls[k].pc.Sent? && s.calls[k].slot.Empty?
  {
    assert k < |s.calls|;
  }

  lemma {:induction false} ExpiredSince(schedule: seq<Action>, k: nat) returns (n: nat)
    requires k < |Run(START, schedule).calls| && Run(START, schedule).calls[k].pc.Expired?
    ensures GaveUp(schedule, k, n, Timer(k))
    ensures var c := Run(START, schedule[..n]).calls[k]; c.pc.Sent? && c.slot.Empty?
  {
    hide Step;
    assert schedule != [];
    var init, last := schedule[..|schedule| - 1], schedule[|schedule| - 1];
    var s := Run(START, init);
    assert schedule == init + [last];
    RunKeeps(init);
    if k < |s.calls| && s.calls[k].pc.Expired? {
      n := ExpiredSince(init, k);
      StepIsLater(s, last, k);
      GaveUpEarlier(init, last, k, n, Timer(k));
    } else {
      n := |init|;
      assert schedule[..n] == init;
      BecomesExpired(s, last, k);
    }
  }

  lemma BecomesSendError(s: State, a: Action, k: nat)
    requires Inv(s) && k < |Step(s, a).calls| && Step(s, a).calls[k].pc.SendError?
    requires k < |s.calls| ==> !s.calls[k].pc.SendError?
    ensures a == Send(k, SendErr) && Later(s, Step(s, a), k) && s.calls[k].pc.Installed?
  {
    assert k < |s.calls|;
  }

  lemma {:induction false} SendErrorSince(schedule: seq<Action>, k: nat) returns (n: nat)
    requires k < |Run(START, schedule).calls| && Run(START, schedule).calls[k].pc.SendError?
    ensures GaveUp(schedule, k, n, Send(k, SendErr))
    ensures Run(START, schedule[..n]).calls[k].pc.Installed?
  {
    hide Step;
    assert schedule != [];
    var init, last := schedule[..|schedule| - 1], schedule[|schedule| - 1];
    var s := Run(START, init);
    assert schedule == init + [last];
    RunKeeps(init);
    if k < |s.calls| && s.calls[k].pc.SendError? {
      n := SendErrorSince(init, k);
      StepIsLater(s, last, k);
      GaveUpEarlier(init, last, k, n, Send(k, SendErr));
    } else {
      n := |init|;
      assert schedule[..n] == init;
      BecomesSendError(s, last, k);
    }
  }

  /** In every run, for every caller about to report a timeout: its order has been settled after all
      if and only if the result was on its way when the timer fired, or an event handled since then
      settles the order. */
  lemma TimeoutLosesIff(schedule: seq<Action>, k: nat) returns (n: nat)
    requires k < |Run(START, schedule).calls| && Run(START, schedule).calls[k].pc.Expired?
    ensures GaveUp(schedule, k, n, Timer(k))
    ensures var (s, t) := (Run(START, schedule[..n]), Run(START, schedule));
            && (Match(t, k).Some? <==> Flying(s, k) || SettledSince(s, t, k))
            && k < |Step(t, Cleanup(k)).calls| && Step(t, Cleanup(k)).calls[k].pc == Done(Timeout)
            && Match(Step(t, Cleanup(k)), k) == Match(t, k)
  {
    n := ExpiredSince(schedule, k);
    var s := Run(START, schedule[..n]);
    RunKeeps(schedule[..n]);
    assert CallOk(s, k);
    AtTimer(s, k);
    MatchGained(s, Run(START, schedule), k);
  }

  /** Likewise for every caller about to report a failed send, whose channel may hold the result too. */
  lemma SendFailedLosesIff(schedule: seq<Action>, k: nat) returns (n: nat)
    requires k < |Run(START, schedule).calls| && Run(START, schedule).calls[k].pc.SendError?
    ensures GaveUp(schedule, k, n, Send(k, SendErr))
    ensures var (s, t) := (Run(START, schedule[..n]), Run(START, schedule));
            && (Match(t, k).Some? <==> Flying(s, k) || s.calls[k].slot.Full? || SettledSince(s, t, k))
            && k < |Step(t, Cleanup(k)).calls| && Step(t, Cleanup(k)).calls[k].pc == Done(SendFailed)
            && Match(Step(t, Cleanup(k)), k) == Match(t, k)
  {
    n := SendErrorSince(schedule, k);
    var s := Run(START, schedule[..n]);
    RunKeeps(schedule[..n]);
    assert CallOk(s, k);
    AtSendError(s, k);
    MatchGained(s, Run(START, schedule), k);
  }

  const RACE_START: seq<Action> := [Announce(7), Allocate, Install(0), Send(0, SendOk)]
  const WAITING := State(8, [Call(7, Sent, Empty, 0)], map[7 := 0], None, [])

  const EXPIRED := State(8, [Call(7, Expired, Empty, 0)], map[7 := 0], None, [])
  const FLYING := State(8, [Call(7, Expired, Empty, 0)], map[], Some((0, Success)), [OpenOrder(7)])
  const LANDED := State(8, [Call(7, Expired, Full(Success), 0)], map[], None, [OpenOrder(7)])
  const LOST := State(8, [Call(7, Done(Timeout), Full(Success), 0)], map[], None, [OpenOrder(7)])
  const ANSWERED := State(8, [Call(7, Sent, Empty, 0)], map[], Some((0, Success)), [OpenOrder(7)])
  const BEATEN := State(8, [Call(7, Done(Timeout), Empty, 0)], map[], Some((0, Success)), [OpenOrder(7)])

  lemma EarlySteps()
    ensures Step(WAITING, Dispatch(OpenOrder(7))) == ANSWERED
    ensures Step(ANSWERED, Timer(0)) == FLYING
    ensures Step(FLYING, Cleanup(0)) == BEATEN
  {
    assert WAITING.pending - {7} == ANSWERED.pending && FLYING.pending - {7} == BEATEN.pending;
    assert [] + [OpenOrder(7)] == [OpenOrder(7)];
  }

  /** Both windows are reachable: the success may leave the map before the timer fires, */
  lemma TimerCanBeatDelivery()
    ensures Run(START, RACE_START + [Dispatch(OpenOrder(7)), Timer(0), Cleanup(0)]) == BEATEN
    ensures Match(BEATEN, 0) == Some(Success)
  {
    hide Run, Step;
    RaceStart();
    RunThree(START, RACE_START, Dispatch(OpenOrder(7)), Timer(0), Cleanup(0));
    EarlySteps();
    MatchAppend([], 0, 7, OpenOrder(7));
    assert [] + [OpenOrder(7)] == BEATEN.log;
  }

  lemma LateSteps()
    ensures Step(WAITING, Timer(0)) == EXPIRED
    ensures Step(EXPIRED, Dispatch(OpenOrder(7))) == FLYING
    ensures Step(FLYING, Deliver) == LANDED
    ensures Step(LANDED, Cleanup(0)) == LOST
  {
    assert EXPIRED.pending - {7} == FLYING.pending && LANDED.pending - {7} == LOST.pending;
    assert [] + [OpenOrder(7)] == [OpenOrder(7)];
  }

  /** or between the timer and the clean-up, when it even reaches the abandoned channel. */
  lemma LateSuccessIsLost()
    ensures Run(START, RACE_START + [Timer(0), Dispatch(OpenOrder(7)), Deliver] + [Cleanup(0)]) == LOST
    ensures Match(LOST, 0) == Some(Success)
  {
    hide Run, Step;
    RaceStart();
    RunThree(START, RACE_START, Timer(0), Dispatch(OpenOrder(7)), Deliver);
    RunSnoc(START, RACE_START + [Timer(0), Dispatch(OpenOrder(7)), Deliver], Cleanup(0));
    LateSteps();
    MatchAppend([], 0, 7, OpenOrder(7));
    assert [] + [OpenOrder(7)] == LOST.log;
  }

  const INSTALLED := State(8, [Call(7, Installed, Empty, 0)], map[7 := 0], None, [])
  const DRAINED := State(8, [Call(7, Installed, Full(ConnectionLost), 0)], map[], None, [Disconnect])
  const UNSENT := State(8, [Call(7, SendError, Full(ConnectionLost), 0)], map[], None, [Disconnect])
  const HIDDEN := State(8, [Call(7, Done(SendFailed), Full(ConnectionLost), 0)], map[], None, [Disconnect])

  lemma FailedSendSteps()
    ensures Step(INSTALLED, Drain) == DRAINED
    ensures Step(DRAINED, Send(0, SendErr)) == UNSENT
    ensures Step(UNSENT, Cleanup(0)) == HIDDEN
  {
    assert INSTALLED.pending[7] == 0 && UNSENT.pending - {7} == HIDDEN.pending;
    assert [] + [Disconnect] == [Disconnect];
  }

  /** A failed send can hide a result too: here a disconnect that the channel already holds. */
  lemma FailedSendHidesResult()
    ensures Run(START, [Announce(7), Allocate, Install(0)] + [Drain, Send(0, SendErr), Cleanup(0)]) == HIDDEN
    ensures Match(HIDDEN, 0) == Some(ConnectionLost)
  {
    hide Run, Step;
    RaceInstalled();
    RunThree(START, [Announce(7), Allocate, Install(0)], Drain, Send(0, SendErr), Cleanup(0));
    FailedSendSteps();
    MatchAppend([], 0, 7, Disconnect);
    assert [] + [Disconnect] == HIDDEN.log;
  }

  lemma RaceInstalled()
    ensures Run(START, [Announce(7), Allocate, Install(0)]) == INSTALLED
  {
    var empty: seq<Action> := [];
    RunThree(START, empty, Announce(7), Allocate, Install(0));
    assert empty + [Announce(7), Allocate, Install(0)] == [Announce(7), Allocate, Install(0)];
    var s := Step(Step(START, Announce(7)), Allocate);
    assert s == State(8, [Call(7, Allocated, Empty, 0)], map[], None, []);
  }

  lemma RaceStart()
    ensures Run(START, RACE_START) == WAITING
  {
    RaceInstalled();
    RunSnoc(START, [Announce(7), Allocate, Install(0)], Send(0, SendOk));
    assert [Announce(7), Allocate, Install(0)] + [Send(0, SendOk)] == RACE_START;
  }

  lemma RunSnoc(s: State, schedule: seq<Action>, a: Action)
    ensures Run(s, schedule + [a]) == Step(Run(s, schedule), a)
  {
    assert (schedule + [a])[..|schedule|] == schedule;
  }

  lemma RunThree(s: State, schedule: seq<Action>, a: Action, b: Action, c: Action)
    ensures Run(s, schedule + [a, b, c]) == Step(Step(Step(Run(s, schedule), a), b), c)
  {
    hide Step;
    RunSnoc(s, schedule, a);
    RunSnoc(s, schedule + [a], b);
    RunSnoc(s, schedule + [a] + [b], c);
    assert schedule + [a] + [b] + [c] == schedule + [a, b, c];
  }
}
