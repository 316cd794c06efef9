/**
 The ring shared by a producer and a consumer that run at the same time. Each access to the shared
 mapping is one step: loading an offset, moving one byte (in any order), storing an offset. Any list
 of actions is a schedule; an action whose side is not at that point of its call does nothing.
 */
module RingInterleaving {
  import opened Bytes
  import opened Ring

  datatype Producer =
    | Idle
    | LoadedWrite(frame: bytes, w: nat)
    | Copying(frame: bytes, w: nat, r: nat, done: set<nat>)

  datatype Consumer =
    | Waiting
    | SawWrite(w: nat)
    | Taking(w: nat, r: nat, got: map<nat, byte>)

  /** The mapping, where each side is in its call, and the history: frames whose write returned
      true, chunks that reads returned, and the producer's drop counter. */
  datatype State = State(
    mem: bytes, w: nat, r: nat, producer: Producer, consumer: Consumer,
    accepted: seq<bytes>, chunks: seq<bytes>, dropped: nat)

  datatype Action =
    | Begin(frame: bytes) | LoadRead | CopyByte(i: nat) | Publish
    | Poll | LoadOwn | TakeByte(i: nat) | Release

  function Start(mem: bytes): (s: State) {
    State(mem, 0, 0, Idle, Waiting, [], [], 0)
  }

  // ---- Producer ----

  /** Entry of `write_frame`: the size test, then the producer's own offset. */
  function DoBegin(s: State, frame: bytes): (t: State) {
    if !s.producer.Idle? then s
    else if |frame| > |s.mem| / 2 then s.(dropped := s.dropped + 1)
    else s.(producer := LoadedWrite(frame, s.w))
  }

  /** Loading the consumer's offset, which may be stale by the time it is used, and the room test. */
  function DoLoadRead(s: State): (t: State) {
    match s.producer
    case LoadedWrite(frame, w) =>
      if |s.mem| as int - (w - s.r) < |frame| then s.(producer := Idle, dropped := s.dropped + 1)
      else s.(producer := Copying(frame, w, s.r, {}))
    case _ => s
  }

  function DoCopyByte(s: State, i: nat): (t: State) {
    match s.producer
    case Copying(frame, w, r, done) =>
      if i < |frame| && |s.mem| > 0 then
        s.(mem := s.mem[Cell(w + i, |s.mem|) := frame[i]], producer := Copying(frame, w, r, done + {i}))
      else s
    case _ => s
  }

  predicate CopyDone(p: Producer) {
    p.Copying? && forall i :: 0 <= i < |p.frame| ==> i in p.done
  }

  function DoPublish(s: State): (t: State) {
    if CopyDone(s.producer) then
      s.(w := s.producer.w + |s.producer.frame|, producer := Idle,
         accepted := s.accepted + [s.producer.frame])
    else s
  }

  // ---- Consumer ----

  function DoPoll(s: State): (t: State) {
    if s.consumer.Waiting? then s.(consumer := SawWrite(s.w)) else s
  }

  function DoLoadOwn(s: State): (t: State) {
    match s.consumer
    case SawWrite(w) => if w <= s.r then s.(consumer := Waiting) else s.(consumer := Taking(w, s.r, map[]))
    case _ => s
  }

  function DoTakeByte(s: State, i: nat): (t: State) {
    match s.consumer
    case Taking(w, r, got) =>
      if r + i < w && |s.mem| > 0 then s.(consumer := Taking(w, r, got[i := s.mem[Cell(r + i, |s.mem|)]]))
      else s
    case _ => s
  }

  predicate TakeDone(c: Consumer) {
    c.Taking? && c.r <= c.w && forall i :: 0 <= i < c.w - c.r ==> i in c.got
  }

  function Chunk(c: Consumer): (chunk: bytes)
    requires TakeDone(c)
    ensures |chunk| == c.w - c.r
  {
    seq(c.w - c.r, i requires 0 <= i < c.w - c.r => c.got[i])
  }

  function DoRelease(s: State): (t: State) {
    if TakeDone(s.consumer) then
      s.(r := s.consumer.w, consumer := Waiting, chunks := s.chunks + [Chunk(s.consumer)])
    else s
  }

  function Step(s: State, a: Action): (t: State) {
    match a
    case Begin(frame) => DoBegin(s, frame)
    case LoadRead => DoLoadRead(s)
    case CopyByte(i) => DoCopyByte(s, i)
    case Publish => DoPublish(s)
    case Poll => DoPoll(s)
    case LoadOwn => DoLoadOwn(s)
    case TakeByte(i) => DoTakeByte(s, i)
    case Release => DoRelease(s)
  }

  function Run(s: State, schedule: seq<Action>): (t: State) {
    if schedule == [] then s
    else Step(Run(s, schedule[..|schedule| - 1]), schedule[|schedule| - 1])
  }

  // ---- Invariant ----

  /** An offset at which some whole number of accepted frames ends. */
  ghost predicate AtBoundary(accepted: seq<bytes>, offset: nat) {
    exists k :: 0 <= k <= |accepted| && |Flatten(accepted[..k])| == offset
  }

  ghost predicate WholeFrames(accepted: seq<bytes>, chunk: bytes) {
    exists a, b :: 0 <= a <= b <= |accepted| && chunk == Flatten(accepted[a..b])
  }

  /** Bytes between the offsets are the accepted bytes at the same stream positions. */
  ghost predicate Holds(mem: bytes, stream: bytes, r: nat, w: nat)
    requires |mem| > 0 && w <= |stream|
  {
    forall j :: r <= j < w ==> mem[Cell(j, |mem|)] == stream[j]
  }

  ghost predicate ProducerOk(p: Producer, mem: bytes, w: nat, r: nat)
    requires |mem| > 0
  {
    match p
    case Idle => true
    case LoadedWrite(frame, w0) => w0 == w && |frame| <= |mem| / 2
    case Copying(frame, w0, r0, done) =>
      && w0 == w && r0 <= r && |frame| <= |mem| / 2 && w + |frame| <= r0 + |mem|
      && forall i :: i in done ==> i < |frame| && mem[Cell(w + i, |mem|)] == frame[i]
  }

  ghost predicate ConsumerOk(c: Consumer, accepted: seq<bytes>, w: nat, r: nat)
    requires |Flatten(accepted)| == w
  {
    match c
    case Waiting => true
    case SawWrite(w0) => r <= w0 <= w && AtBoundary(accepted, w0)
    case Taking(w0, r0, got) =>
      && r0 == r && r < w0 <= w && AtBoundary(accepted, w0)
      && forall i :: i in got && r + i < w0 ==> got[i] == Flatten(accepted)[r + i]
  }

  /** The offsets measure the history: all that was accepted, and the part of it that was read, in
      chunks of whole frames. */
  ghost predicate HistoryOk(w: nat, r: nat, accepted: seq<bytes>, chunks: seq<bytes>) {
    && r <= w == |Flatten(accepted)|
    && Flatten(chunks) == Flatten(accepted)[..r]
    && AtBoundary(accepted, r)
    && (forall c :: c in chunks ==> WholeFrames(accepted, c))
  }

  ghost predicate MemoryOk(mem: bytes, w: nat, r: nat, stream: bytes) {
    |mem| > 0 && r <= w <= r + |mem| && w == |stream| && Holds(mem, stream, r, w)
  }

  ghost predicate Inv(s: State) {
    && HistoryOk(s.w, s.r, s.accepted, s.chunks)
    && MemoryOk(s.mem, s.w, s.r, Flatten(s.accepted))
    && ProducerOk(s.producer, s.mem, s.w, s.r)
    && ConsumerOk(s.consumer, s.accepted, s.w, s.r)
  }

  lemma StartInv(mem: bytes)
    requires |mem| > 0
    ensures Inv(Start(mem))
  {
    var none: seq<bytes> := [];
    assert none[..0] == [];
  }

  lemma {:induction false} BoundaryGrows(accepted: seq<bytes>, frame: bytes, offset: nat)
    requires AtBoundary(accepted, offset)
    ensures AtBoundary(accepted + [frame], offset)
  {
    var k :| 0 <= k <= |accepted| && |Flatten(accepted[..k])| == offset;
    assert (accepted + [frame])[..k] == accepted[..k];
  }

  lemma WholeFramesGrows(accepted: seq<bytes>, frame: bytes, chunk: bytes)
    requires WholeFrames(accepted, chunk)
    ensures WholeFrames(accepted + [frame], chunk)
  {
    var a, b :| 0 <= a <= b <= |accepted| && chunk == Flatten(accepted[a..b]);
    assert (accepted + [frame])[a..b] == accepted[a..b];
  }

  /** Between two frame boundaries lie whole frames. */
  lemma SpanIsWholeFrames(accepted: seq<bytes>, a: nat, b: nat)
    requires a <= b <= |accepted|
    ensures |Flatten(accepted[..a])| <= |Flatten(accepted[..b])| <= |Flatten(accepted)|
    ensures Flatten(accepted)[|Flatten(accepted[..a])|..|Flatten(accepted[..b])|] == Flatten(accepted[a..b])
  {
    FlattenConcat(accepted[..a], accepted[a..b]);
    FlattenConcat(accepted[..b], accepted[b..]);
    assert accepted[..a] + accepted[a..b] == accepted[..b];
    assert accepted[..b] + accepted[b..] == accepted;
  }

  lemma ChunkIsWholeFrames(accepted: seq<bytes>, from: nat, to: nat)
    requires AtBoundary(accepted, from) && AtBoundary(accepted, to) && from <= to <= |Flatten(accepted)|
    ensures WholeFrames(accepted, Flatten(accepted)[from..to])
  {
    var a :| 0 <= a <= |accepted| && |Flatten(accepted[..a])| == from;
    var b :| 0 <= b <= |accepted| && |Flatten(accepted[..b])| == to;
    if a <= b {
      SpanIsWholeFrames(accepted, a, b);
    } else {
      SpanIsWholeFrames(accepted, b, a);
      assert Flatten(accepted[0..0]) == [];
    }
  }

  /** A copy in progress never touches a byte that is published and unread. */
  lemma CopyAvoidsUnread(s: State, i: nat, j: nat)
    requires Inv(s) && s.producer.Copying? && i < |s.producer.frame| && s.r <= j < s.w
    ensures Cell(s.producer.w + i, |s.mem|) != Cell(j, |s.mem|)
  {
    DistinctCells(j, s.w + i, |s.mem|);
  }

  /** Writing within a lap of the reader, at or past the write offset, keeps the unread bytes. */
  lemma WriteKeepsUnread(mem: bytes, stream: bytes, r: nat, w: nat, at: nat, b: byte)
    requires |mem| > 0 && w <= |stream| && Holds(mem, stream, r, w) && w <= at < r + |mem|
    ensures Holds(mem[Cell(at, |mem|) := b], stream, r, w)
  {
    forall j | r <= j < w ensures Cell(j, |mem|) != Cell(at, |mem|) {
      DistinctCells(j, at, |mem|);
    }
  }

  /** Writing one more byte of the frame keeps those already written. */
  lemma WriteKeepsCopied(mem: bytes, p: Producer, w: nat, r: nat, i: nat)
    requires |mem| > 0 && ProducerOk(p, mem, w, r) && p.Copying? && i < |p.frame|
    ensures ProducerOk(p.(done := p.done + {i}), mem[Cell(w + i, |mem|) := p.frame[i]], w, r)
  {
    forall k | k in p.done && k != i ensures Cell(w + k, |mem|) != Cell(w + i, |mem|) {
      if k < i { DistinctCells(w + k, w + i, |mem|); } else { DistinctCells(w + i, w + k, |mem|); }
    }
  }

  lemma CopyByteKeeps(s: State, i: nat)
    requires Inv(s)
    ensures Inv(DoCopyByte(s, i))
  {
    hide HistoryOk, ConsumerOk, Flatten;
    if s.producer.Copying? && i < |s.producer.frame| {
      WriteKeepsUnread(s.mem, Flatten(s.accepted), s.r, s.w, s.w + i, s.producer.frame[i]);
      WriteKeepsCopied(s.mem, s.producer, s.w, s.r, i);
    }
  }

  lemma HistoryGrows(w: nat, r: nat, accepted: seq<bytes>, chunks: seq<bytes>, frame: bytes)
    requires HistoryOk(w, r, accepted, chunks)
    ensures HistoryOk(w + |frame|, r, accepted + [frame], chunks)
  {
    FlattenSnoc(accepted, frame);
    assert (Flatten(accepted) + frame)[..r] == Flatten(accepted)[..r];
    BoundaryGrows(accepted, frame, r);
    forall c | c in chunks ensures WholeFrames(accepted + [frame], c) {
      WholeFramesGrows(accepted, frame, c);
    }
  }

  /** A fully copied frame extends the stream by its bytes. */
  lemma MemoryGrows(mem: bytes, w: nat, r: nat, stream: bytes, frame: bytes)
    requires MemoryOk(mem, w, r, stream) && w + |frame| <= r + |mem|
    requires forall i :: 0 <= i < |frame| ==> mem[Cell(w + i, |mem|)] == frame[i]
    ensures MemoryOk(mem, w + |frame|, r, stream + frame)
  {
    forall j | r <= j < w + |frame| ensures mem[Cell(j, |mem|)] == (stream + frame)[j] {
      if j >= w { assert mem[Cell(w + (j - w), |mem|)] == frame[j - w]; }
    }
  }

  lemma ConsumerGrows(c: Consumer, accepted: seq<bytes>, w: nat, r: nat, frame: bytes)
    requires |Flatten(accepted)| == w && ConsumerOk(c, accepted, w, r)
    ensures Flatten(accepted + [frame]) == Flatten(accepted) + frame
    ensures ConsumerOk(c, accepted + [frame], w + |frame|, r)
  {
    FlattenSnoc(accepted, frame);
    if !c.Waiting? {
      BoundaryGrows(accepted, frame, c.w);
    }
  }

  /** When every byte is marked done, the mapping holds the frame past the write offset. */
  lemma CopiedFrame(p: Producer, mem: bytes, w: nat, r: nat, stream: bytes)
    requires MemoryOk(mem, w, r, stream) && ProducerOk(p, mem, w, r) && CopyDone(p)
    ensures p.w == w && MemoryOk(mem, w + |p.frame|, r, stream + p.frame)
  {
    MemoryGrows(mem, w, r, stream, p.frame);
  }

  lemma PublishKeeps(s: State)
    requires Inv(s)
    ensures Inv(DoPublish(s))
  {
    if CopyDone(s.producer) {
      CopiedFrame(s.producer, s.mem, s.w, s.r, Flatten(s.accepted));
      HistoryGrows(s.w, s.r, s.accepted, s.chunks, s.producer.frame);
      ConsumerGrows(s.consumer, s.accepted, s.w, s.r, s.producer.frame);
    }
  }

  lemma PollKeeps(s: State)
    requires Inv(s)
    ensures Inv(DoPoll(s))
  {
    assert s.accepted[..|s.accepted|] == s.accepted;
  }

  lemma TakeByteKeeps(s: State, i: nat)
    requires Inv(s)
    ensures Inv(DoTakeByte(s, i))
  {
  }

  /** A finished take holds exactly the accepted bytes between the two offsets it loaded. */
  lemma ChunkIsStream(s: State)
    requires Inv(s) && TakeDone(s.consumer)
    ensures Chunk(s.consumer) == Flatten(s.accepted)[s.r..s.consumer.w]
  {
  }

  /** Reading up to a later boundary moves the read part of the history there. */
  lemma HistoryAdvances(w: nat, r: nat, accepted: seq<bytes>, chunks: seq<bytes>, to: nat)
    requires HistoryOk(w, r, accepted, chunks) && r <= to <= w && AtBoundary(accepted, to)
    ensures HistoryOk(w, to, accepted, chunks + [Flatten(accepted)[r..to]])
  {
    var stream := Flatten(accepted);
    FlattenSnoc(chunks, stream[r..to]);
    assert stream[..r] + stream[r..to] == stream[..to];
    ChunkIsWholeFrames(accepted, r, to);
  }

  lemma ReleaseKeeps(s: State)
    requires Inv(s)
    ensures Inv(DoRelease(s))
  {
    if TakeDone(s.consumer) {
      ChunkIsStream(s);
      HistoryAdvances(s.w, s.r, s.accepted, s.chunks, s.consumer.w);
    }
  }

  /** Loading an offset writes nothing to the mapping. */
  lemma BeginKeeps(s: State, frame: bytes)
    requires Inv(s)
    ensures Inv(DoBegin(s, frame))
  {
  }

  lemma LoadReadKeeps(s: State)
    requires Inv(s)
    ensures Inv(DoLoadRead(s))
  {
    hide HistoryOk, MemoryOk, ConsumerOk, Cell, Flatten;
  }

  lemma LoadOwnKeeps(s: State)
    requires Inv(s)
    ensures Inv(DoLoadOwn(s))
  {
  }

  lemma MemoryLengthKept(s: State, a: Action)
    ensures |Step(s, a).mem| == |s.mem|
  {
  }

  lemma StepKeeps(s: State, a: Action)
    requires Inv(s)
    ensures Inv(Step(s, a)) && |Step(s, a).mem| == |s.mem|
  {
    MemoryLengthKept(s, a);
    match a
    case CopyByte(i) => CopyByteKeeps(s, i);
    case Publish => PublishKeeps(s);
    case Poll => PollKeeps(s);
    case TakeByte(i) => TakeByteKeeps(s, i);
    case Release => ReleaseKeeps(s);
    case Begin(frame) => BeginKeeps(s, frame);
    case LoadRead => LoadReadKeeps(s);
    case LoadOwn => LoadOwnKeeps(s);
  }

  lemma {:induction false} RunKeeps(s: State, schedule: seq<Action>)
    requires Inv(s)
    ensures Inv(Run(s, schedule)) && |Run(s, schedule).mem| == |s.mem|
  {
    if schedule != [] {
      RunKeeps(s, schedule[..|schedule| - 1]);
      StepKeeps(Run(s, schedule[..|schedule| - 1]), schedule[|schedule| - 1]);
    }
  }

  /** The published, unread part of the mapping. */
  function Unread(s: State): (u: bytes)
    requires |s.mem| > 0 && s.r <= s.w
  {
    seq(s.w - s.r, i requires 0 <= i < s.w - s.r => s.mem[Cell(s.r + i, |s.mem|)])
  }

  /** In every schedule, from any initial memory: the offsets stay within one lap, what was read and
      what is still in the ring are together exactly what was accepted, in order, and every chunk
      is a whole number of accepted frames. */
  lemma EveryScheduleIsFifo(mem: bytes, schedule: seq<Action>)
    requires |mem| > 0
    ensures var s := Run(Start(mem), schedule);
            && |s.mem| == |mem|
            && s.r <= s.w <= s.r + |mem|
            && Flatten(s.chunks) + Unread(s) == Flatten(s.accepted)
            && (forall c :: c in s.chunks ==> WholeFrames(s.accepted, c))
  {
    StartInv(mem);
    RunKeeps(Start(mem), schedule);
    var s := Run(Start(mem), schedule);
    var stream := Flatten(s.accepted);
    assert Unread(s) == stream[s.r..];
    assert stream == stream[..s.r] + stream[s.r..];
  }
}
