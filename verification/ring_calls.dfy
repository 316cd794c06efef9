/**
 The step system and the methods of the ring class describe the same calls: a write or a read whose
 steps are not interrupted does what the method's contract says.
 */
module RingCalls {
  import opened Bytes
  import opened Ring
  import opened RingInterleaving

  function Copies(n: nat): (schedule: seq<Action>) {
    if n == 0 then [] else Copies(n - 1) + [CopyByte(n - 1)]
  }

  function Takes(n: nat): (schedule: seq<Action>) {
    if n == 0 then [] else Takes(n - 1) + [TakeByte(n - 1)]
  }

  /** The steps of `write_frame`, in program order. */
  function WriteCall(frame: bytes): (schedule: seq<Action>) {
    [Begin(frame), LoadRead] + Copies(|frame|) + [Action.Publish]
  }

  /** The steps of `read_available` when it finds `avail` bytes. */
  function ReadCall(avail: nat): (schedule: seq<Action>) {
    [Poll, LoadOwn] + Takes(avail) + [Release]
  }

  lemma RunSnoc(s: State, schedule: seq<Action>, a: Action)
    ensures Run(s, schedule + [a]) == Step(Run(s, schedule), a)
  {
    assert (schedule + [a])[..|schedule|] == schedule;
  }

  lemma {:induction false} RunConcat(s: State, a: seq<Action>, b: seq<Action>)
    ensures Run(s, a + b) == Run(Run(s, a), b)
    decreases |b|
  {
    if b == [] {
      assert a + b == a;
    } else {
      var init, last := b[..|b| - 1], b[|b| - 1];
      RunConcat(s, a, init);
      assert a + b == (a + init) + [last];
      RunSnoc(s, a + init, last);
    }
  }

  /** A call is two loads, a stretch of byte moves, and one store. */
  lemma CallSteps(s: State, first: Action, second: Action, moves: seq<Action>, last: Action)
    ensures Run(s, [first, second] + moves + [last]) == Step(Run(Step(Step(s, first), second), moves), last)
  {
    RunSnoc(s, [], first);
    RunSnoc(s, [first], second);
    assert [] + [first] == [first] && [first] + [second] == [first, second];
    RunConcat(s, [first, second], moves);
    RunSnoc(s, [first, second] + moves, last);
  }

  /** The state after byte moves differs from the one before only in what was moved. */
  ghost predicate Copied(s: State, t: State, n: nat) {
    && s.producer.Copying? && t.producer.Copying?
    && t == s.(mem := t.mem, producer := t.producer) && |t.mem| == |s.mem|
    && t.producer.frame == s.producer.frame && t.producer.w == s.producer.w
    && (forall i :: 0 <= i < n ==> i in t.producer.done)
  }

  lemma CopyOne(s: State, t: State, n: nat)
    requires |s.mem| > 0 && Copied(s, t, n) && n < |s.producer.frame|
    ensures Copied(s, DoCopyByte(t, n), n + 1)
  {
  }

  lemma {:induction false} CopiesRun(s: State, n: nat)
    requires |s.mem| > 0 && s.producer.Copying? && n <= |s.producer.frame|
    ensures Copied(s, Run(s, Copies(n)), n)
  {
    hide DoCopyByte, DoRelease, DoPublish, DoLoadRead, DoLoadOwn;
    if n > 0 {
      CopiesRun(s, n - 1);
      CopyOne(s, Run(s, Copies(n - 1)), n - 1);
      RunSnoc(s, Copies(n - 1), CopyByte(n - 1));
    }
  }

  ghost predicate Taken(s: State, t: State, n: nat) {
    && s.consumer.Taking? && t.consumer.Taking?
    && t == s.(consumer := t.consumer)
    && t.consumer.r == s.consumer.r && t.consumer.w == s.consumer.w
    && (forall i :: 0 <= i < n ==> i in t.consumer.got)
  }

  lemma TakeOne(s: State, t: State, n: nat)
    requires |s.mem| > 0 && Taken(s, t, n) && s.consumer.r + n < s.consumer.w
    ensures Taken(s, DoTakeByte(t, n), n + 1)
  {
  }

  lemma {:induction false} TakesRun(s: State, n: nat)
    requires |s.mem| > 0 && s.consumer.Taking? && s.consumer.r + n <= s.consumer.w
    ensures Taken(s, Run(s, Takes(n)), n)
  {
    hide DoTakeByte, DoRelease, DoPublish, DoLoadRead, DoLoadOwn;
    if n > 0 {
      TakesRun(s, n - 1);
      TakeOne(s, Run(s, Takes(n - 1)), n - 1);
      RunSnoc(s, Takes(n - 1), TakeByte(n - 1));
    }
  }

  /** A refused write has nothing to copy. */
  lemma {:induction false} NothingToCopy(s: State, n: nat)
    requires s.producer.Idle?
    ensures Run(s, Copies(n)) == s
  {
    if n > 0 {
      NothingToCopy(s, n - 1);
      RunSnoc(s, Copies(n - 1), CopyByte(n - 1));
    }
  }

  predicate Fits(s: State, frame: bytes) {
    |frame| <= |s.mem| / 2 && |frame| as int <= |s.mem| - (s.w - s.r)
  }

  /** What the two loads decide. */
  function Loaded(s: State, frame: bytes): (t: State) {
    if Fits(s, frame) then s.(producer := Copying(frame, s.w, s.r, {})) else s.(dropped := s.dropped + 1)
  }

  lemma LoadsDecide(s: State, frame: bytes)
    requires s.producer.Idle?
    ensures Step(Step(s, Begin(frame)), LoadRead) == Loaded(s, frame)
  {
  }

  lemma WriteSteps(s: State, frame: bytes)
    requires |s.mem| > 0 && s.producer.Idle?
    ensures var t := Run(s, WriteCall(frame));
            if Fits(s, frame) then t == s.(mem := t.mem, w := s.w + |frame|, accepted := s.accepted + [frame])
            else t == s.(dropped := s.dropped + 1)
  {
    var before := Run(Loaded(s, frame), Copies(|frame|));
    assert Run(s, WriteCall(frame)) == DoPublish(before) by {
      CallSteps(s, Begin(frame), LoadRead, Copies(|frame|), Action.Publish);
      LoadsDecide(s, frame);
    }
    if Fits(s, frame) {
      CopiesRun(Loaded(s, frame), |frame|);
    } else {
      NothingToCopy(Loaded(s, frame), |frame|);
    }
  }

  lemma LoadsSeeAll(s: State)
    requires s.consumer.Waiting? && s.r <= s.w
    ensures Step(Step(s, Poll), LoadOwn) == if s.r == s.w then s else s.(consumer := Taking(s.w, s.r, map[]))
  {
  }

  lemma ReadSteps(s: State)
    requires |s.mem| > 0 && s.consumer.Waiting? && s.r <= s.w
    ensures var t := Run(s, ReadCall(s.w - s.r));
            if s.r == s.w then t == s
            else |t.chunks| == |s.chunks| + 1 && t == s.(r := s.w, chunks := s.chunks + [t.chunks[|s.chunks|]])
  {
    hide Run;
    var n := s.w - s.r;
    var loaded := Step(Step(s, Poll), LoadOwn);
    var before := Run(loaded, Takes(n));
    assert Run(s, ReadCall(n)) == DoRelease(before) by {
      CallSteps(s, Poll, LoadOwn, Takes(n), Release);
    }
    LoadsSeeAll(s);
    if n == 0 {
      NothingTaken(loaded);
    } else {
      TakesRun(loaded, n);
      assert TakeDone(before.consumer);
      assert (s.chunks + [Chunk(before.consumer)])[|s.chunks|] == Chunk(before.consumer);
    }
  }

  lemma NothingTaken(s: State)
    ensures Run(s, Takes(0)) == s
  {
  }

  /** What is unread is the part of what was accepted that no chunk holds. */
  lemma UnreadIsRest(s: State)
    requires Inv(s)
    ensures |s.mem| > 0 && s.r <= s.w && Flatten(s.accepted) == Flatten(s.chunks) + Unread(s)
  {
    var stream := Flatten(s.accepted);
    assert Unread(s) == stream[s.r..];
    assert stream == stream[..s.r] + stream[s.r..];
  }

  lemma SameHead(head: bytes, a: bytes, b: bytes)
    requires head + a == head + b
    ensures a == b
  {
    assert (head + a)[|head|..] == a && (head + b)[|head|..] == b;
  }

  /** With the same chunks read, more accepted bytes are more unread bytes. */
  lemma UnreadGrows(s: State, t: State, tail: bytes)
    requires Inv(s) && Inv(t) && t.chunks == s.chunks
    requires Flatten(t.accepted) == Flatten(s.accepted) + tail
    ensures Unread(t) == Unread(s) + tail
  {
    UnreadIsRest(s);
    UnreadIsRest(t);
    Associate(Flatten(s.chunks), Unread(s), tail);
    SameHead(Flatten(s.chunks), Unread(t), Unread(s) + tail);
  }

  /** The frame is accepted exactly when it is at most half the ring and fits in the free space, and
      it then joins the unread bytes; otherwise only the drop counter moves. */
  lemma UninterruptedWrite(s: State, frame: bytes)
    requires Inv(s) && s.producer.Idle?
    ensures var t := Run(s, WriteCall(frame));
            && Inv(t) && t == s.(mem := t.mem, w := t.w, accepted := t.accepted, dropped := t.dropped)
            && t.w == s.w + (if Fits(s, frame) then |frame| else 0)
            && t.dropped == s.dropped + (if Fits(s, frame) then 0 else 1)
            && Unread(t) == Unread(s) + (if Fits(s, frame) then frame else [])
  {
    hide Run, Flatten, HistoryOk, ProducerOk, ConsumerOk, Holds;
    var t := Run(s, WriteCall(frame));
    RunKeeps(s, WriteCall(frame));
    WriteSteps(s, frame);
    FlattenSnoc(s.accepted, frame);
    UnreadGrows(s, t, if Fits(s, frame) then frame else []);
  }

  /** Everything unread is returned as one chunk, or nothing when there is nothing, and the ring is
      left empty. */
  lemma UninterruptedRead(s: State)
    requires Inv(s) && s.consumer.Waiting?
    ensures s.r <= s.w
    ensures var t := Run(s, ReadCall(s.w - s.r));
            && Inv(t) && t == s.(r := s.w, chunks := t.chunks) && Unread(t) == []
            && t.chunks == s.chunks + (if Unread(s) == [] then [] else [Unread(s)])
  {
    var t := Run(s, ReadCall(s.w - s.r));
    RunKeeps(s, ReadCall(s.w - s.r));
    ReadSteps(s);
    UnreadIsRest(s);
    UnreadIsRest(t);
    if s.r < s.w {
      var chunk := t.chunks[|s.chunks|];
      FlattenSnoc(s.chunks, chunk);
      SameHead(Flatten(s.chunks), chunk, Unread(s));
    }
  }
}
