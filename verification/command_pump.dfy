/**
 End-to-end delivery over the ring: a writer that sends packed bodies, and the pump that on every
 tick unpacks whatever the ring holds into a fresh buffer.
 */
module CommandPump {
  import opened Bytes
  import opened Framing
  import opened IpcProtocol
  import Ring
  import RingCalls
  import opened RingInterleaving
  import opened Wrappers

  /** Capacities for which every packed body the ring accepts is one the pump can unpack. */
  const MAX_HALF_RING := MAX_FRAME_BYTES + 4

  // ---- One caller at a time ----

  /** `SHMServer::publish`. */
  method Publish(ring: Ring.Ring, body: bytes) returns (ok: bool)
    requires ring.Valid()
    modifies ring`written, ring`framesDropped, ring.data
    ensures ring.Valid()
    ensures ring.Unread() == old(ring.Unread()) + if ok then Pack(body) else []
    ensures ring.framesDropped == old(ring.framesDropped) + if ok then 0 else 1
    ensures ok && ring.data.Length / 2 <= MAX_HALF_RING ==> |body| <= MAX_FRAME_BYTES
  {
    var frame := PackFrame(body);
    ok := ring.WriteFrame(frame);
    assert old(ring.Unread()) + [] == old(ring.Unread());
  }

  /** One tick of `command_pump`: the bodies it sends on. If the ring held packed bodies, they come
      out whole and in order. */
  method Tick(ring: Ring.Ring) returns (sent: seq<bytes>)
    requires ring.Valid()
    modifies ring`read
    ensures ring.Valid() && ring.Unread() == []
    ensures var d := Drain(old(ring.Unread()), MAX_FRAME_BYTES);
            sent == if d.oversize then [] else d.bodies
    ensures forall bodies :: AllFit(bodies, MAX_FRAME_BYTES) && old(ring.Unread()) == PackAll(bodies) ==>
              sent == bodies
  {
    var data := ring.ReadAvailable();
    forall bodies | AllFit(bodies, MAX_FRAME_BYTES) && data == PackAll(bodies)
      ensures Drain(data, MAX_FRAME_BYTES) == Drained(bodies, [], false)
    {
      DrainComplete(bodies, [], MAX_FRAME_BYTES);
      assert PackAll(bodies) + [] == PackAll(bodies);
    }
    if |data| == 0 {
      return [];
    }
    var buf := new ByteBuffer(data);
    var r := UnpackAllFrames(buf);
    sent := match r case Ok(bodies) => bodies case Err => [];
  }

  // ---- Both sides at once ----

  /** The shared ring, the bodies whose publish returned true, the bodies the pump sent on, the
      ticks lost to an unpack error, and the bytes lost as partial tails. */
  datatype PumpState = PumpState(ring: State, bodies: seq<bytes>, sent: seq<bytes>, errors: nat, lost: bytes)

  /** Either a body offered for sending, or any later step of either side. */
  datatype PumpAction = Offer(body: bytes) | Internal(step: Action)

  function StartPump(mem: bytes): (p: PumpState) {
    PumpState(Start(mem), [], [], 0, [])
  }

  /** The pump's work on the chunk it has just taken. */
  function OnChunk(p: PumpState, chunk: bytes): (q: PumpState) {
    var d := Drain(chunk, MAX_FRAME_BYTES);
    if d.oversize then p.(errors := p.errors + 1)
    else p.(sent := p.sent + d.bodies, lost := p.lost + d.rest)
  }

  function StepPump(p: PumpState, a: PumpAction): (q: PumpState) {
    match a
    case Offer(body) => p.(ring := DoBegin(p.ring, Pack(body)))
    case Internal(step) =>
      var ring := Step(p.ring, step);
      if step == Action.Publish && CopyDone(p.ring.producer) && |p.ring.producer.frame| >= 4 then
        p.(ring := ring, bodies := p.bodies + [p.ring.producer.frame[4..]])
      else if step == Release && TakeDone(p.ring.consumer) then
        OnChunk(p.(ring := ring), Chunk(p.ring.consumer))
      else if step.Begin? then p
      else p.(ring := ring)
  }

  function RunPump(p: PumpState, schedule: seq<PumpAction>): (q: PumpState) {
    if schedule == [] then p
    else StepPump(RunPump(p, schedule[..|schedule| - 1]), schedule[|schedule| - 1])
  }

  function PackEach(bodies: seq<bytes>): (frames: seq<bytes>)
    ensures |frames| == |bodies|
    ensures forall i :: 0 <= i < |bodies| ==> frames[i] == Pack(bodies[i])
  {
    if bodies == [] then [] else [Pack(bodies[0])] + PackEach(bodies[1..])
  }

  lemma {:induction false} FlattenPackEach(bodies: seq<bytes>)
    ensures Flatten(PackEach(bodies)) == PackAll(bodies)
  {
    if bodies != [] {
      assert PackEach(bodies)[1..] == PackEach(bodies[1..]);
      FlattenPackEach(bodies[1..]);
    }
  }

  ghost predicate IsPacked(frame: bytes) {
    |frame| >= 4 && frame == Pack(frame[4..])
  }

  ghost predicate PumpInv(p: PumpState) {
    && Inv(p.ring)
    && |p.ring.mem| / 2 <= MAX_HALF_RING
    && p.ring.accepted == PackEach(p.bodies)
    && AllFit(p.bodies, MAX_FRAME_BYTES)
    && (!p.ring.producer.Idle? ==> IsPacked(p.ring.producer.frame))
    && p.sent <= p.bodies
    && p.ring.r == |PackAll(p.sent)|
    && p.errors == 0 && p.lost == []
  }

  lemma {:induction false} PackEachSlice(bodies: seq<bytes>, a: nat, b: nat)
    requires a <= b <= |bodies|
    ensures PackEach(bodies)[a..b] == PackEach(bodies[a..b])
  {
    var whole, part := PackEach(bodies), PackEach(bodies[a..b]);
    forall i | 0 <= i < b - a ensures whole[a..b][i] == part[i] {
      assert part[i] == Pack(bodies[a..b][i]) == Pack(bodies[a + i]);
    }
  }

  lemma PackedPrefix(bodies: seq<bytes>, k: nat)
    requires k <= |bodies|
    ensures Flatten(PackEach(bodies)[..k]) == PackAll(bodies[..k])
  {
    PackEachSlice(bodies, 0, k);
    FlattenPackEach(bodies[..k]);
    assert bodies[0..k] == bodies[..k] && PackEach(bodies)[0..k] == PackEach(bodies)[..k];
  }

  /** Between two frame boundaries of the stream lie the packings of the bodies in between. */
  lemma PackedSpan(bodies: seq<bytes>, a: nat, b: nat)
    requires a <= b <= |bodies|
    ensures var stream := Flatten(PackEach(bodies));
            var (from, to) := (|PackAll(bodies[..a])|, |PackAll(bodies[..b])|);
            from <= to <= |stream| && stream[from..to] == PackAll(bodies[a..b])
  {
    PackedPrefix(bodies, a);
    PackedPrefix(bodies, b);
    SpanIsWholeFrames(PackEach(bodies), a, b);
    PackEachSlice(bodies, a, b);
    FlattenPackEach(bodies[a..b]);
  }

  /** Packed frames are not empty, so offsets and frame counts determine each other. */
  lemma PackAllStrict(bodies: seq<bytes>, a: nat, b: nat)
    requires a <= b <= |bodies|
    ensures |PackAll(bodies[..a])| + 4 * (b - a) <= |PackAll(bodies[..b])|
  {
    assert bodies[..b] == bodies[..a] + bodies[a..b];
    PackAllConcat(bodies[..a], bodies[a..b]);
    PackAllLength(bodies[a..b]);
  }

  lemma {:induction false} PackAllLength(bodies: seq<bytes>)
    ensures |PackAll(bodies)| >= 4 * |bodies|
  {
    if bodies != [] {
      PackAllLength(bodies[1..]);
    }
  }

  /** The bytes between the pump's position and any later frame boundary are the packings of the
      next bodies, and unpack to exactly them. */
  lemma ChunkUnpacks(p: PumpState) returns (upTo: nat)
    requires PumpInv(p) && TakeDone(p.ring.consumer)
    ensures |p.sent| <= upTo <= |p.bodies|
    ensures Drain(Chunk(p.ring.consumer), MAX_FRAME_BYTES) == Drained(p.bodies[|p.sent|..upTo], [], false)
    ensures p.ring.consumer.w == |PackAll(p.bodies[..upTo])|
  {
    hide ProducerOk, Drain, PackAll, Holds;
    var accepted, n := p.ring.accepted, |p.sent|;
    upTo :| 0 <= upTo <= |accepted| && |Flatten(accepted[..upTo])| == p.ring.consumer.w;
    PackedPrefix(p.bodies, upTo);
    assert p.bodies[..n] == p.sent;
    if upTo < n {
      PackAllStrict(p.bodies, upTo, n);
    }
    PackedSpan(p.bodies, n, upTo);
    ChunkIsStream(p.ring);
    DrainComplete(p.bodies[n..upTo], [], MAX_FRAME_BYTES);
    assert PackAll(p.bodies[n..upTo]) + [] == PackAll(p.bodies[n..upTo]);
  }

  lemma PrefixExtends(bodies: seq<bytes>, sent: seq<bytes>, upTo: nat)
    requires sent <= bodies && |sent| <= upTo <= |bodies|
    ensures sent + bodies[|sent|..upTo] == bodies[..upTo]
  {
  }

  lemma ReleaseKeepsPump(p: PumpState)
    requires PumpInv(p) && TakeDone(p.ring.consumer)
    ensures PumpInv(StepPump(p, Internal(Release)))
    ensures StepPump(p, Internal(Release)).bodies == p.bodies && p.sent <= StepPump(p, Internal(Release)).sent
  {
    hide HistoryOk, MemoryOk, ProducerOk, ConsumerOk;
    ReleaseKeeps(p.ring);
    var upTo := ChunkUnpacks(p);
    PrefixExtends(p.bodies, p.sent, upTo);
    assert p.lost + [] == [];
  }

  lemma PublishKeepsPump(p: PumpState)
    requires PumpInv(p) && CopyDone(p.ring.producer)
    ensures PumpInv(StepPump(p, Internal(Action.Publish)))
  {
    StepKeeps(p.ring, Action.Publish);
    var q := StepPump(p, Internal(Action.Publish));
    assert q.ring.accepted == PackEach(q.bodies);
  }

  lemma OfferKeepsPump(p: PumpState, body: bytes)
    requires PumpInv(p)
    ensures PumpInv(StepPump(p, Offer(body)))
  {
    assert Pack(body)[4..] == body;
    StepKeeps(p.ring, Begin(Pack(body)));
  }

  /** Steps that neither publish nor release leave the histories alone. */
  lemma QuietStepKeepsPump(p: PumpState, step: Action)
    requires PumpInv(p)
    requires step == Action.Publish ==> !CopyDone(p.ring.producer)
    requires step == Release ==> !TakeDone(p.ring.consumer)
    ensures PumpInv(StepPump(p, Internal(step)))
  {
    hide HistoryOk, MemoryOk, ProducerOk, ConsumerOk;
    StepKeeps(p.ring, step);
  }

  lemma StepKeepsPump(p: PumpState, a: PumpAction)
    requires PumpInv(p)
    ensures PumpInv(StepPump(p, a))
  {
    if a.Offer? {
      OfferKeepsPump(p, a.body);
    } else if a.step == Action.Publish && CopyDone(p.ring.producer) {
      PublishKeepsPump(p);
    } else if a.step == Release && TakeDone(p.ring.consumer) {
      ReleaseKeepsPump(p);
    } else {
      QuietStepKeepsPump(p, a.step);
    }
  }

  lemma {:induction false} RunKeepsPump(p: PumpState, schedule: seq<PumpAction>)
    requires PumpInv(p)
    ensures PumpInv(RunPump(p, schedule))
  {
    if schedule != [] {
      RunKeepsPump(p, schedule[..|schedule| - 1]);
      StepKeepsPump(RunPump(p, schedule[..|schedule| - 1]), schedule[|schedule| - 1]);
    }
  }

  lemma StartPumpInv(mem: bytes)
    requires 0 < |mem| && |mem| / 2 <= MAX_HALF_RING
    ensures PumpInv(StartPump(mem))
  {
    StartInv(mem);
  }

  /** In every schedule: the bodies are those of the accepted frames; they come out exactly once, in
      order and unchanged, no tick fails and no partial tail is thrown away; and whatever is not yet
      out is still in the ring. */
  lemma EveryScheduleDelivers(mem: bytes, schedule: seq<PumpAction>)
    requires 0 < |mem| && |mem| / 2 <= MAX_HALF_RING
    ensures var p := RunPump(StartPump(mem), schedule);
            && p.ring.accepted == PackEach(p.bodies)
            && p.sent <= p.bodies && p.errors == 0 && p.lost == []
            && |p.ring.mem| > 0 && p.ring.r <= p.ring.w
            && Unread(p.ring) == PackAll(p.bodies[|p.sent|..])
  {
    StartPumpInv(mem);
    RunKeepsPump(StartPump(mem), schedule);
    var p := RunPump(StartPump(mem), schedule);
    var stream := Flatten(p.ring.accepted);
    assert Unread(p.ring) == stream[p.ring.r..];
    FlattenPackEach(p.bodies);
    assert p.bodies == p.sent + p.bodies[|p.sent|..];
    PackAllConcat(p.sent, p.bodies[|p.sent|..]);
  }

  // ---- What was offered ----

  function Offered(schedule: seq<PumpAction>): (bodies: seq<bytes>) {
    if schedule == [] then []
    else
      var before, last := Offered(schedule[..|schedule| - 1]), schedule[|schedule| - 1];
      if last.Offer? then before + [last.body] else before
  }

  /** One list is another with some elements left out. */
  ghost predicate Subsequence(a: seq<bytes>, b: seq<bytes>) {
    if a == [] then true
    else if b == [] then false
    else
      || Subsequence(a, b[..|b| - 1])
      || (a[|a| - 1] == b[|b| - 1] && Subsequence(a[..|a| - 1], b[..|b| - 1]))
  }

  lemma SubsequenceSkips(a: seq<bytes>, b: seq<bytes>, last: bytes)
    requires Subsequence(a, b)
    ensures Subsequence(a, b + [last])
  {
    assert (b + [last])[..|b|] == b;
  }

  lemma SubsequenceTakes(a: seq<bytes>, b: seq<bytes>, last: bytes)
    requires Subsequence(a, b)
    ensures Subsequence(a + [last], b + [last])
  {
    assert (a + [last])[..|a|] == a && (b + [last])[..|b|] == b;
  }

  lemma {:induction false} SubsequenceDrops(a: seq<bytes>, last: bytes, b: seq<bytes>)
    requires Subsequence(a + [last], b)
    ensures Subsequence(a, b)
  {
    var longer, init := a + [last], b[..|b| - 1];
    assert longer[..|a|] == a && b == init + [b[|b| - 1]];
    if Subsequence(longer, init) {
      SubsequenceDrops(a, last, init);
    }
    SubsequenceSkips(a, init, b[|b| - 1]);
  }

  /** The body of the frame the writer is at work on, if any. */
  function InHand(p: PumpState): (bodies: seq<bytes>)
    ensures |bodies| <= 1
  {
    if p.ring.producer.Idle? || |p.ring.producer.frame| < 4 then [] else [p.ring.producer.frame[4..]]
  }

  lemma InHandAfter(p: PumpState, a: PumpAction)
    requires PumpInv(p)
    ensures var q := StepPump(p, a);
            || q.bodies + InHand(q) == p.bodies + InHand(p)
            || (q.bodies == p.bodies && InHand(q) == [])
            || (a.Offer? && q.bodies == p.bodies && InHand(p) == [] && InHand(q) == [a.body])
  {
    hide Inv, AllFit;
    if a.Offer? {
      assert Pack(a.body)[4..] == a.body;
    }
    assert p.bodies + [] == p.bodies;
  }

  /** In every schedule the bodies that got into the ring, and the one in hand, are bodies that were
      offered, unchanged and in order, some of them refused. */
  lemma {:induction false} BodiesWereOffered(mem: bytes, schedule: seq<PumpAction>)
    requires 0 < |mem| && |mem| / 2 <= MAX_HALF_RING
    ensures var p := RunPump(StartPump(mem), schedule);
            Subsequence(p.bodies, Offered(schedule)) && Subsequence(p.bodies + InHand(p), Offered(schedule))
  {
    hide PumpInv, StepPump, InHand;
    if schedule == [] {
      NothingInHand(mem);
    } else {
      var init, a := schedule[..|schedule| - 1], schedule[|schedule| - 1];
      var p := RunPump(StartPump(mem), init);
      var q := StepPump(p, a);
      BodiesWereOffered(mem, init);
      StartPumpInv(mem);
      RunKeepsPump(StartPump(mem), init);
      InHandAfter(p, a);
      OfferedExtends(p.bodies, InHand(p), q.bodies, InHand(q), Offered(init), a);
    }
  }

  lemma NothingInHand(mem: bytes)
    ensures StartPump(mem).bodies + InHand(StartPump(mem)) == []
  {
  }

  lemma OfferedExtends(
      bodies: seq<bytes>, hand: seq<bytes>, bodies': seq<bytes>, hand': seq<bytes>, offered: seq<bytes>, a: PumpAction)
    requires Subsequence(bodies, offered) && Subsequence(bodies + hand, offered) && |hand'| <= 1
    requires || bodies' + hand' == bodies + hand
             || (bodies' == bodies && hand' == [])
             || (a.Offer? && bodies' == bodies && hand == [] && hand' == [a.body])
    ensures var longer := if a.Offer? then offered + [a.body] else offered;
            Subsequence(bodies', longer) && Subsequence(bodies' + hand', longer)
  {
    hide Subsequence;
    assert bodies + [] == bodies && bodies' + [] == bodies';
    if bodies' + hand' == bodies + hand || (bodies' == bodies && hand' == []) {
      if hand' != [] {
        assert bodies' + [hand'[0]] == bodies' + hand';
        SubsequenceDrops(bodies', hand'[0], offered);
      }
      if a.Offer? {
        SubsequenceSkips(bodies', offered, a.body);
        SubsequenceSkips(bodies' + hand', offered, a.body);
      }
    } else {
      SubsequenceSkips(bodies, offered, a.body);
      SubsequenceTakes(bodies, offered, a.body);
    }
  }

  function AsPump(schedule: seq<Action>): (steps: seq<PumpAction>)
    ensures |steps| == |schedule|
    ensures forall i :: 0 <= i < |steps| ==> steps[i] == Internal(schedule[i])
  {
    seq(|schedule|, i requires 0 <= i < |schedule| => Internal(schedule[i]))
  }

  /** The steps of `publish`, in program order. */
  function PublishCall(body: bytes): (steps: seq<PumpAction>) {
    [Offer(body)] + AsPump([LoadRead] + RingCalls.Copies(|Pack(body)|) + [Action.Publish])
  }

  lemma {:induction false} RingOfRun(p: PumpState, schedule: seq<Action>)
    requires forall a :: a in schedule ==> !a.Begin?
    ensures RunPump(p, AsPump(schedule)).ring == Run(p.ring, schedule)
  {
    if schedule != [] {
      var init := schedule[..|schedule| - 1];
      assert AsPump(schedule)[..|schedule| - 1] == AsPump(init);
      RingOfRun(p, init);
    }
  }

  lemma {:induction false} RunPumpConcat(p: PumpState, a: seq<PumpAction>, b: seq<PumpAction>)
    ensures RunPump(p, a + b) == RunPump(RunPump(p, a), b)
    decreases |b|
  {
    hide StepPump;
    if b == [] {
      assert a + b == a;
    } else {
      assert (a + b)[..|a + b| - 1] == a + b[..|b| - 1];
      RunPumpConcat(p, a, b[..|b| - 1]);
    }
  }

  lemma {:induction false} CopiesBeginNothing(n: nat)
    ensures forall a :: a in RingCalls.Copies(n) ==> !a.Begin?
  {
    if n > 0 {
      CopiesBeginNothing(n - 1);
    }
  }

  lemma OfferBegins(p: PumpState, body: bytes)
    ensures RunPump(p, [Offer(body)]).ring == Run(p.ring, [Begin(Pack(body))])
  {
    assert [Offer(body)][..0] == [];
    RingCalls.RunSnoc(p.ring, [], Begin(Pack(body)));
    assert [] + [Begin(Pack(body))] == [Begin(Pack(body))];
  }

  lemma WriteCallParts(frame: bytes)
    ensures RingCalls.WriteCall(frame) == [Begin(frame)] + ([LoadRead] + RingCalls.Copies(|frame|) + [Action.Publish])
  {
  }

  /** The ring under an uninterrupted publish takes the steps of an uninterrupted write. */
  lemma RingOfPublish(p: PumpState, body: bytes)
    ensures RunPump(p, PublishCall(body)).ring == Run(p.ring, RingCalls.WriteCall(Pack(body)))
  {
    hide RunPump, Run, AsPump, Pack, RingCalls.WriteCall;
    var frame := Pack(body);
    var rest := [LoadRead] + RingCalls.Copies(|frame|) + [Action.Publish];
    RunPumpConcat(p, [Offer(body)], AsPump(rest));
    OfferBegins(p, body);
    CopiesBeginNothing(|frame|);
    RingOfRun(RunPump(p, [Offer(body)]), rest);
    RingCalls.RunConcat(p.ring, [Begin(frame)], rest);
    WriteCallParts(frame);
  }

  lemma {:induction false} PackEachInjective(a: seq<bytes>, b: seq<bytes>)
    requires PackEach(a) == PackEach(b)
    ensures a == b
  {
    assert |a| == |PackEach(a)| == |b|;
    forall i | 0 <= i < |a| ensures a[i] == b[i] {
      assert Pack(a[i])[4..] == a[i] && Pack(b[i])[4..] == b[i];
    }
  }

  /** An uninterrupted publish adds exactly its own body when the frame is at most half the ring and
      fits, and otherwise only counts a drop. */
  lemma PublishAddsItsBody(p: PumpState, body: bytes)
    requires PumpInv(p) && p.ring.producer.Idle?
    ensures var q, ok := RunPump(p, PublishCall(body)), RingCalls.Fits(p.ring, Pack(body));
            && PumpInv(q) && q.ring.producer.Idle?
            && q.bodies == p.bodies + (if ok then [body] else [])
            && q.ring.dropped == p.ring.dropped + (if ok then 0 else 1)
  {
    hide StepPump, Step;
    var q, ok := RunPump(p, PublishCall(body)), RingCalls.Fits(p.ring, Pack(body));
    RunKeepsPump(p, PublishCall(body));
    RingOfPublish(p, body);
    RingCalls.WriteSteps(p.ring, Pack(body));
    PackEachSnoc(p.bodies, body);
    assert p.bodies + [] == p.bodies;
    PackEachInjective(q.bodies, p.bodies + if ok then [body] else []);
  }

  lemma PackEachSnoc(bodies: seq<bytes>, body: bytes)
    ensures PackEach(bodies + [body]) == PackEach(bodies) + [Pack(body)]
  {
  }

  // ---- Refinement of a queue of messages ----

  datatype Fifo = Fifo(queue: seq<bytes>, out: seq<bytes>)

  datatype FifoAction = Stutter | Enqueue(m: bytes) | Dequeue(n: nat)

  predicate Enabled(f: Fifo, a: FifoAction) {
    a.Dequeue? ==> a.n <= |f.queue|
  }

  function NextFifo(f: Fifo, a: FifoAction): (g: Fifo)
    requires Enabled(f, a)
  {
    match a
    case Stutter => f
    case Enqueue(m) => f.(queue := f.queue + [m])
    case Dequeue(n) => Fifo(f.queue[n..], f.out + f.queue[..n])
  }

  function View(p: PumpState): (f: Fifo)
    requires |p.sent| <= |p.bodies|
  {
    Fifo(p.bodies[|p.sent|..], p.sent)
  }

  /** What a step does to the queue: publishing puts the frame's body in, a finished read takes out
      as many messages as it unpacks, and every other step does nothing. */
  function Label(p: PumpState, a: PumpAction): (l: FifoAction) {
    if a == Internal(Action.Publish) && CopyDone(p.ring.producer) && |p.ring.producer.frame| >= 4 then
      Enqueue(p.ring.producer.frame[4..])
    else if a == Internal(Release) && TakeDone(p.ring.consumer) then
      Dequeue(|Drain(Chunk(p.ring.consumer), MAX_FRAME_BYTES).bodies|)
    else Stutter
  }

  lemma PublishEnqueues(p: PumpState)
    requires PumpInv(p) && CopyDone(p.ring.producer)
    ensures var m := p.ring.producer.frame[4..];
            View(StepPump(p, Internal(Action.Publish))) == NextFifo(View(p), Enqueue(m))
  {
  }

  /** A finished read sends on the next bodies, as many as its chunk unpacks to. */
  lemma ReleaseSends(p: PumpState) returns (upTo: nat)
    requires PumpInv(p) && TakeDone(p.ring.consumer)
    ensures |p.sent| <= upTo <= |p.bodies|
    ensures |Drain(Chunk(p.ring.consumer), MAX_FRAME_BYTES).bodies| == upTo - |p.sent|
    ensures var q := StepPump(p, Internal(Release));
            q.bodies == p.bodies && q.sent == p.sent + p.bodies[|p.sent|..upTo]
  {
    upTo := ChunkUnpacks(p);
    hide PumpInv, Chunk, Drain;
  }

  lemma ReleaseDequeues(p: PumpState)
    requires PumpInv(p) && TakeDone(p.ring.consumer)
    ensures var (q, n) := (StepPump(p, Internal(Release)), |Drain(Chunk(p.ring.consumer), MAX_FRAME_BYTES).bodies|);
            && |q.sent| <= |q.bodies| && n <= |View(p).queue|
            && View(q) == NextFifo(View(p), Dequeue(n))
  {
    var upTo := ReleaseSends(p);
    hide PumpInv, StepPump, Drain, Chunk;
    DequeuedView(p.bodies, p.sent, upTo);
  }

  lemma DequeuedView(bodies: seq<bytes>, sent: seq<bytes>, upTo: nat)
    requires |sent| <= upTo <= |bodies|
    ensures var longer, n := sent + bodies[|sent|..upTo], upTo - |sent|;
            && |longer| == upTo && n <= |bodies[|sent|..]|
            && Fifo(bodies[|longer|..], longer) == NextFifo(Fifo(bodies[|sent|..], sent), Dequeue(n))
  {
    var queue := bodies[|sent|..];
    assert queue[..upTo - |sent|] == bodies[|sent|..upTo];
    assert queue[upTo - |sent|..] == bodies[upTo..];
  }

  /** Every step of the concurrent system is the step of a message queue that its label names: a body
      in at the back, as it was packed; the next messages out at the front; or nothing. */
  lemma RefinesFifo(p: PumpState, a: PumpAction)
    requires PumpInv(p)
    ensures PumpInv(StepPump(p, a)) && Enabled(View(p), Label(p, a))
    ensures View(StepPump(p, a)) == NextFifo(View(p), Label(p, a))
    ensures Label(p, a).Enqueue? ==> p.ring.producer.frame == Pack(Label(p, a).m)
  {
    StepKeepsPump(p, a);
    if a == Internal(Action.Publish) && CopyDone(p.ring.producer) {
      PublishEnqueues(p);
    } else if a == Internal(Release) && TakeDone(p.ring.consumer) {
      ReleaseDequeues(p);
    } else {
      QuietHistories(p, a);
    }
  }

  lemma QuietHistories(p: PumpState, a: PumpAction)
    requires a == Internal(Action.Publish) ==> !CopyDone(p.ring.producer)
    requires a == Internal(Release) ==> !TakeDone(p.ring.consumer)
    ensures StepPump(p, a).sent == p.sent && StepPump(p, a).bodies == p.bodies
  {
  }

  // ---- The capacity bound is exact ----

  /** Every packed body a ring of this capacity can accept is one the pump can unpack, if and only
      if half the ring is at most the largest frame. */
  lemma CapacityBoundIsExact(capacity: nat)
    requires capacity > 0
    ensures (forall body: bytes :: |Pack(body)| <= capacity / 2 ==>
               Drain(Pack(body), MAX_FRAME_BYTES) == Drained([body], [], false))
            <==> capacity / 2 <= 4 * 1024 * 1024 + 4
  {
    if capacity / 2 <= MAX_HALF_RING {
      forall body: bytes | |Pack(body)| <= capacity / 2
        ensures Drain(Pack(body), MAX_FRAME_BYTES) == Drained([body], [], false)
      {
        DrainComplete([body], [], MAX_FRAME_BYTES);
        assert [body][1..] == [];
        assert PackAll([body]) == Pack(body) + PackAll([]);
        assert PackAll([body]) + [] == Pack(body);
      }
    } else {
      var body: bytes := seq(MAX_FRAME_BYTES + 1, _ => 0);
      Be32RoundTrip(|body|);
      assert Pack(body)[..4] == Be32(|body|);
      assert Next(Pack(body), MAX_FRAME_BYTES).Oversize?;
    }
  }
}
