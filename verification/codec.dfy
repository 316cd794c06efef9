/**
 The IBKR wire codec: NUL-terminated fields inside a length-prefixed frame, decoded incrementally.
 A field is its bytes; the lossy UTF-8 conversion is the identity on the valid text modelled here.
 */
module Codec {
  import opened Bytes
  import opened Framing
  import opened Wrappers

  const MAX_MESSAGE_BYTES := 16 * 1024 * 1024

  type Message = seq<bytes>

  // ---- Fields ----

  /** The payload of a message: each field followed by a NUL. */
  function Terminated(fields: Message): (payload: bytes)
  {
    if fields == [] then [] else fields[0] + [0] + Terminated(fields[1..])
  }

  /** `payload.split(|b| b == 0)`: always at least one piece. */
  function Split(payload: bytes): (pieces: seq<bytes>)
    ensures |pieces| >= 1
  {
    if payload == [] then [[]]
    else
      var rest := Split(payload[1..]);
      if payload[0] == 0 then [[]] + rest
      else [[payload[0]] + rest[0]] + rest[1..]
  }

  /** The decoder drops one trailing empty piece. */
  function Fields(payload: bytes): (fields: Message)
  {
    var pieces := Split(payload);
    if pieces[|pieces| - 1] == [] then pieces[..|pieces| - 1] else pieces
  }

  ghost predicate NulFree(fields: Message) {
    forall i :: 0 <= i < |fields| ==> 0 !in fields[i]
  }

  lemma {:induction false} TerminatedConcat(a: Message, b: Message)
    ensures Terminated(a + b) == Terminated(a) + Terminated(b)
  {
    if a == [] {
      assert a + b == b;
    } else {
      assert (a + b)[1..] == a[1..] + b;
      TerminatedConcat(a[1..], b);
    }
  }

  lemma TerminatedSnoc(fields: Message, f: bytes)
    ensures Terminated(fields + [f]) == Terminated(fields) + f + [0]
  {
    TerminatedConcat(fields, [f]);
    assert Terminated([f]) == f + [0] + Terminated([]);
  }

  lemma {:induction false} SplitField(f: bytes, rest: bytes)
    requires 0 !in f
    ensures Split(f + [0] + rest) == [f] + Split(rest)
  {
    var payload := f + [0] + rest;
    if f == [] {
      assert payload[1..] == rest;
    } else {
      assert payload[1..] == f[1..] + [0] + rest;
      SplitField(f[1..], rest);
      assert f == [f[0]] + f[1..];
    }
  }

  lemma SplitOneField(f: bytes, payload: bytes, rest: seq<bytes>)
    requires 0 !in f && Split(payload) == rest
    ensures Split(f + [0] + payload) == [f] + rest
  {
    SplitField(f, payload);
  }

  lemma {:induction false} SplitTerminated(fields: Message)
    requires NulFree(fields)
    ensures Split(Terminated(fields)) == fields + [[]]
  {
    if fields != [] {
      SplitTerminated(fields[1..]);
      SplitOneField(fields[0], Terminated(fields[1..]), fields[1..] + [[]]);
      assert fields + [[]] == [fields[0]] + (fields[1..] + [[]]);
    }
  }

  /** Decoding recovers every NUL-free field list, the empty list and trailing empty fields included. */
  lemma FieldsOfTerminated(fields: Message)
    requires NulFree(fields)
    ensures Fields(Terminated(fields)) == fields
  {
    SplitTerminated(fields);
  }

  lemma TerminatedCons(f: bytes, rest: seq<bytes>)
    ensures Terminated([f] + rest) == f + [0] + Terminated(rest)
  {
    assert ([f] + rest)[1..] == rest;
  }

  lemma TerminatedOfNul(rest: seq<bytes>)
    ensures Terminated([[]] + rest) == [0] + Terminated(rest)
  {
    hide Terminated;
    TerminatedCons([], rest);
    assert [] + [0] == [0];
  }

  lemma TerminatedOfByte(b: byte, rest: seq<bytes>)
    requires |rest| >= 1
    ensures Terminated([[b] + rest[0]] + rest[1..]) == [b] + Terminated(rest)
  {
    hide Terminated;
    var tail := Terminated(rest[1..]);
    TerminatedCons([b] + rest[0], rest[1..]);
    TerminatedCons(rest[0], rest[1..]);
    assert [rest[0]] + rest[1..] == rest;
    Associate([b], rest[0], [0]);
    Associate([b], rest[0] + [0], tail);
  }

  /** One more byte in front of a payload is one more byte in front of its terminated pieces. */
  lemma TerminatedOfOneMore(b: byte, unread: bytes)
    ensures Terminated(Split([b] + unread)) == [b] + Terminated(Split(unread))
  {
    assert ([b] + unread)[1..] == unread;
    if b == 0 {
      TerminatedOfNul(Split(unread));
    } else {
      TerminatedOfByte(b, Split(unread));
    }
  }

  lemma {:induction false} TerminatedOfSplit(payload: bytes)
    ensures Terminated(Split(payload)) == payload + [0]
  {
    if payload == [] {
      assert Terminated([[]]) == [] + [0] + Terminated([]);
    } else {
      TerminatedOfSplit(payload[1..]);
      TerminatedOfOneMore(payload[0], payload[1..]);
      assert [payload[0]] + payload[1..] == payload;
      assert [payload[0]] + (payload[1..] + [0]) == payload + [0];
    }
  }

  lemma {:induction false} SplitPieces(payload: bytes)
    ensures NulFree(Split(payload))
    ensures Split(payload)[|Split(payload)| - 1] == [] <==> payload == [] || payload[|payload| - 1] == 0
  {
    if payload != [] {
      SplitPieces(payload[1..]);
    }
  }

  /** Encoding what was decoded gives back the payload, with the final NUL supplied if it was missing. */
  lemma TerminatedOfFields(payload: bytes)
    ensures NulFree(Fields(payload))
    ensures Terminated(Fields(payload)) ==
            if payload == [] || payload[|payload| - 1] == 0 then payload else payload + [0]
  {
    TerminatedOfSplit(payload);
    SplitPieces(payload);
    var pieces := Split(payload);
    if pieces[|pieces| - 1] == [] {
      var fields := pieces[..|pieces| - 1];
      assert pieces == fields + [[]];
      TerminatedSnoc(fields, []);
      assert Terminated(fields) + [] + [0] == payload + [0];
      assert (Terminated(fields) + [0])[..|payload|] == (payload + [0])[..|payload|];
    }
  }

  // ---- Messages ----

  function Encode(fields: Message): (frame: bytes) {
    Pack(Terminated(fields))
  }

  ghost predicate Sendable(m: Message) {
    NulFree(m) && |Terminated(m)| <= 16 * 1024 * 1024
  }

  method EncodeFields(fields: Message) returns (out: bytes)
    ensures out == Encode(fields)
    ensures Sendable(fields) ==>
              Next(out, MAX_MESSAGE_BYTES) == Frame(Terminated(fields), []) && Fields(Terminated(fields)) == fields
  {
    var payload: bytes := [];
    for i := 0 to |fields|
      invariant payload == Terminated(fields[..i])
    {
      TerminatedSnoc(fields[..i], fields[i]);
      assert fields[..i + 1] == fields[..i] + [fields[i]];
      payload := payload + fields[i];
      payload := payload + [0];
    }
    assert fields[..|fields|] == fields;
    out := Be32(|payload|);
    out := out + payload;
    if Sendable(fields) {
      NextOfPack(payload, [], MAX_MESSAGE_BYTES);
      assert out + [] == out;
      FieldsOfTerminated(fields);
    }
  }

  /** Pieces collected so far, the piece being read, and the pieces of the unread payload. */
  ghost function Resume(done: seq<bytes>, current: bytes, rest: seq<bytes>): (pieces: seq<bytes>)
    requires |rest| >= 1
  {
    done + ([current + rest[0]] + rest[1..])
  }

  lemma SplitByte(b: byte, unread: bytes)
    ensures var rest := Split(unread);
            Split([b] + unread) == if b == 0 then [[]] + rest else [[b] + rest[0]] + rest[1..]
  {
    assert ([b] + unread)[1..] == unread;
  }

  lemma ResumeNul(done: seq<bytes>, current: bytes, rest: seq<bytes>)
    requires |rest| >= 1
    ensures Resume(done, current, [[]] + rest) == Resume(done + [current], [], rest)
  {
    assert current + [] == current && [] + rest[0] == rest[0];
    assert ([[]] + rest)[1..] == rest;
    assert rest == [rest[0]] + rest[1..];
    Associate(done, [current], rest);
  }

  lemma ResumeOther(done: seq<bytes>, current: bytes, b: byte, rest: seq<bytes>)
    requires |rest| >= 1
    ensures Resume(done, current, [[b] + rest[0]] + rest[1..]) == Resume(done, current + [b], rest)
  {
    Associate(current, [b], rest[0]);
    assert ([[b] + rest[0]] + rest[1..])[1..] == rest[1..];
  }

  /** What reading one more byte does to the three parts. */
  lemma ResumeByte(done: seq<bytes>, current: bytes, b: byte, unread: bytes)
    ensures Resume(done, current, Split([b] + unread)) ==
            if b == 0 then Resume(done + [current], [], Split(unread))
            else Resume(done, current + [b], Split(unread))
  {
    hide Split, Resume;
    SplitByte(b, unread);
    if b == 0 {
      ResumeNul(done, current, Split(unread));
    } else {
      ResumeOther(done, current, b, Split(unread));
    }
  }

  /** Splitting loop of the decoder. */
  method SplitFields(payload: bytes) returns (fields: Message)
    ensures fields == Fields(payload)
  {
    fields := [];
    var current: bytes := [];
    assert payload[0..] == payload && [] + Split(payload)[0] == Split(payload)[0];
    for i := 0 to |payload|
      invariant Split(payload) == Resume(fields, current, Split(payload[i..]))
    {
      assert payload[i..] == [payload[i]] + payload[i + 1..];
      ResumeByte(fields, current, payload[i], payload[i + 1..]);
      if payload[i] == 0 {
        fields, current := fields + [current], [];
      } else {
        current := current + [payload[i]];
      }
    }
    assert payload[|payload|..] == [] && current + [] == current;
    fields := fields + [current];
    assert fields == Split(payload);
    if fields[|fields| - 1] == [] {
      fields := fields[..|fields| - 1];
    }
  }

  method TryDecodeFrame(buf: ByteBuffer) returns (r: Result<Option<Message>>)
    modifies buf
    ensures match Next(old(buf.bytes), MAX_MESSAGE_BYTES)
            case NeedMore => r == Ok(None) && buf.bytes == old(buf.bytes)
            case Oversize => r == Err && buf.bytes == old(buf.bytes)
            case Frame(payload, rest) => r == Ok(Some(Fields(payload))) && buf.bytes == rest
  {
    if |buf.bytes| < 4 {
      return Ok(None);
    }
    var size := FromBe32(buf.bytes[..4]);
    if size > MAX_MESSAGE_BYTES {
      return Err;
    }
    if |buf.bytes| < 4 + size {
      return Ok(None);
    }
    var fields := SplitFields(buf.bytes[4..4 + size]);
    buf.bytes := buf.bytes[4 + size..];
    r := Ok(Some(fields));
  }

  function FieldsEach(payloads: seq<bytes>): (ms: seq<Message>)
    ensures |ms| == |payloads|
  {
    if payloads == [] then [] else [Fields(payloads[0])] + FieldsEach(payloads[1..])
  }

  lemma {:induction false} FieldsEachAt(payloads: seq<bytes>, i: nat)
    requires i < |payloads|
    ensures FieldsEach(payloads)[i] == Fields(payloads[i])
  {
    hide Fields;
    if i > 0 {
      FieldsEachAt(payloads[1..], i - 1);
    }
  }

  lemma {:induction false} FieldsEachConcat(a: seq<bytes>, b: seq<bytes>)
    ensures FieldsEach(a + b) == FieldsEach(a) + FieldsEach(b)
  {
    hide Fields;
    if a == [] {
      assert a + b == b;
    } else {
      assert (a + b)[1..] == a[1..] + b;
      FieldsEachConcat(a[1..], b);
      Associate([Fields(a[0])], FieldsEach(a[1..]), FieldsEach(b));
    }
  }

  method TryDecodeAll(buf: ByteBuffer) returns (r: Result<seq<Message>>)
    modifies buf
    ensures var d := Drain(old(buf.bytes), MAX_MESSAGE_BYTES);
            buf.bytes == d.rest && r == if d.oversize then Err else Ok(FieldsEach(d.bodies))
  {
    var out: seq<Message> := [];
    while true
      invariant var d := Drain(old(buf.bytes), MAX_MESSAGE_BYTES);
                var e := Drain(buf.bytes, MAX_MESSAGE_BYTES);
                && FieldsEach(d.bodies) == out + FieldsEach(e.bodies)
                && d.rest == e.rest && d.oversize == e.oversize
      decreases |buf.bytes|
    {
      ghost var e := Drain(buf.bytes, MAX_MESSAGE_BYTES);
      var step := TryDecodeFrame(buf);
      match step {
        case Err => return Err;
        case Ok(None) =>
          assert out + FieldsEach(e.bodies) == out;
          return Ok(out);
        case Ok(Some(fields)) =>
          assert Drain(buf.bytes, MAX_MESSAGE_BYTES).bodies == e.bodies[1..];
          Associate(out, [fields], FieldsEach(e.bodies[1..]));
          out := out + [fields];
      }
    }
  }

  // ---- The receive loop ----

  /** What the bounded dispatch channel answers to one `try_send`. */
  datatype Answer = Taken | Full | Closed

  /** Messages the channel took, how many were decoded and how many dropped, and whether the channel
      was found closed. */
  datatype Outbox = Outbox(sent: seq<Message>, received: nat, dropped: nat, closed: bool)

  const EMPTY_OUTBOX := Outbox([], 0, 0, false)

  function Forward(o: Outbox, m: Message, answer: Answer): (p: Outbox) {
    if o.closed then o
    else
      match answer
      case Taken => o.(sent := o.sent + [m], received := o.received + 1)
      case Full => o.(received := o.received + 1, dropped := o.dropped + 1)
      case Closed => o.(received := o.received + 1, closed := true)
  }

  /** Forwarding messages in order, the n-th of them meeting the n-th answer. */
  function ForwardAll(ms: seq<Message>, answers: nat -> Answer): (o: Outbox) {
    if ms == [] then EMPTY_OUTBOX
    else Forward(ForwardAll(ms[..|ms| - 1], answers), ms[|ms| - 1], answers(|ms| - 1))
  }

  lemma ForwardSnoc(ms: seq<Message>, m: Message, answers: nat -> Answer)
    ensures ForwardAll(ms + [m], answers) == Forward(ForwardAll(ms, answers), m, answers(|ms|))
  {
    assert (ms + [m])[..|ms|] == ms;
  }

  lemma {:induction false} ClosedStays(ms: seq<Message>, more: seq<Message>, answers: nat -> Answer)
    requires ForwardAll(ms, answers).closed
    ensures ForwardAll(ms + more, answers) == ForwardAll(ms, answers)
    decreases |more|
  {
    if more == [] {
      assert ms + more == ms;
    } else {
      var init, last := more[..|more| - 1], more[|more| - 1];
      ClosedStays(ms, init, answers);
      ForwardSnoc(ms + init, last, answers);
      assert ms + more == (ms + init) + [last];
    }
  }

  /** The messages the channel takes, of those it is offered. */
  function TakenOf(ms: seq<Message>, answers: nat -> Answer): (sent: seq<Message>) {
    if ms == [] then []
    else
      var init := TakenOf(ms[..|ms| - 1], answers);
      if answers(|ms| - 1).Taken? then init + [ms[|ms| - 1]] else init
  }

  ghost predicate NeverClosed(answers: nat -> Answer, n: nat) {
    forall i :: 0 <= i < n ==> !answers(i).Closed?
  }

  lemma {:induction false} ForwardCounts(ms: seq<Message>, answers: nat -> Answer)
    ensures var o := ForwardAll(ms, answers);
            && |o.sent| + o.dropped + (if o.closed then 1 else 0) == o.received <= |ms|
            && (!o.closed ==> o.received == |ms|)
  {
    if ms != [] {
      ForwardCounts(ms[..|ms| - 1], answers);
    }
  }

  lemma {:induction false} ForwardStops(ms: seq<Message>, answers: nat -> Answer)
    ensures var o := ForwardAll(ms, answers);
            if o.closed then o.received > 0 && NeverClosed(answers, o.received - 1) && answers(o.received - 1).Closed?
            else NeverClosed(answers, |ms|)
  {
    if ms != [] {
      ForwardCounts(ms[..|ms| - 1], answers);
      ForwardStops(ms[..|ms| - 1], answers);
    }
  }

  lemma {:induction false} ForwardSends(ms: seq<Message>, answers: nat -> Answer)
    ensures ForwardAll(ms, answers).received <= |ms|
    ensures ForwardAll(ms, answers).sent == TakenOf(ms[..ForwardAll(ms, answers).received], answers)
  {
    ForwardCounts(ms, answers);
    if ms == [] {
      assert ms[..0] == [];
    } else {
      var init := ms[..|ms| - 1];
      ForwardSends(init, answers);
      ForwardCounts(init, answers);
      if ForwardAll(init, answers).closed {
        var n := ForwardAll(init, answers).received;
        assert init[..n] == ms[..n];
      } else {
        assert init[..|init|] == init && ms[..|ms|] == ms;
      }
    }
  }

  lemma {:induction false} TakenOfAll(ms: seq<Message>, answers: nat -> Answer)
    requires forall i :: 0 <= i < |ms| ==> answers(i).Taken?
    ensures TakenOf(ms, answers) == ms
  {
    if ms != [] {
      TakenOfAll(ms[..|ms| - 1], answers);
    }
  }

  /** Every decoded message is sent, dropped or the one that found the channel closed; nothing is
      decoded after that one; the sent ones are in order those the channel took, which is everything
      when it takes everything. */
  lemma ForwardAccounts(ms: seq<Message>, answers: nat -> Answer)
    ensures var o := ForwardAll(ms, answers);
            && |o.sent| + o.dropped + (if o.closed then 1 else 0) == o.received <= |ms|
            && (if o.closed then
                  o.received > 0 && NeverClosed(answers, o.received - 1) && answers(o.received - 1).Closed?
                else o.received == |ms| && NeverClosed(answers, |ms|))
            && o.sent == TakenOf(ms[..o.received], answers)
            && ((forall i :: 0 <= i < |ms| ==> answers(i).Taken?) ==> o.sent == ms)
  {
    ForwardCounts(ms, answers);
    ForwardStops(ms, answers);
    ForwardSends(ms, answers);
    assert ms[..|ms|] == ms;
    if forall i :: 0 <= i < |ms| ==> answers(i).Taken? {
      TakenOfAll(ms, answers);
    }
  }

  /** The inner loop: one `try_send` per decoded message, giving up when the channel is closed. */
  method SendEach(before: Outbox, ms: seq<Message>, answers: nat -> Answer, ghost earlier: seq<Message>)
    returns (after: Outbox)
    requires before == ForwardAll(earlier, answers) && !before.closed
    ensures after == ForwardAll(earlier + ms, answers)
  {
    hide ForwardAll;
    after := before;
    var i := 0;
    assert earlier + ms[..0] == earlier;
    while i < |ms| && !after.closed
      invariant i <= |ms|
      invariant after == ForwardAll(earlier + ms[..i], answers)
    {
      ForwardCounts(earlier + ms[..i], answers);
      ForwardSnoc(earlier + ms[..i], ms[i], answers);
      assert earlier + ms[..i + 1] == (earlier + ms[..i]) + [ms[i]];
      after := Forward(after, ms[i], answers(after.received));
      i := i + 1;
    }
    assert earlier + ms == (earlier + ms[..i]) + ms[i..];
    if after.closed {
      ClosedStays(earlier + ms[..i], ms[i..], answers);
    } else {
      assert ms[i..] == [] && (earlier + ms[..i]) + [] == earlier + ms[..i];
    }
  }

  /** The receive task is still reading after these reads. */
  ghost predicate Running(taken: seq<bytes>, answers: nat -> Answer) {
    var t := FeedAll(taken, MAX_MESSAGE_BYTES);
    !t.dead && !ForwardAll(FieldsEach(t.bodies), answers).closed
  }

  /** The receive task after a number of reads: its buffer, and what it has forwarded. */
  ghost predicate After(taken: seq<bytes>, answers: nat -> Answer, buf: bytes, out: Outbox, failed: bool) {
    var t := FeedAll(taken, MAX_MESSAGE_BYTES);
    buf == t.buf && failed == t.dead && out == ForwardAll(FieldsEach(t.bodies), answers)
  }

  lemma NothingTaken(answers: nat -> Answer)
    ensures After([], answers, [], EMPTY_OUTBOX, false)
  {
  }

  /** What one read does to the messages decoded so far. */
  lemma ReadOne(taken: seq<bytes>, chunk: bytes)
    requires !FeedAll(taken, MAX_MESSAGE_BYTES).dead
    ensures var (s, t) := (FeedAll(taken, MAX_MESSAGE_BYTES), FeedAll(taken + [chunk], MAX_MESSAGE_BYTES));
            var d := Drain(s.buf + chunk, MAX_MESSAGE_BYTES);
            && t.buf == d.rest && t.dead == d.oversize
            && FieldsEach(t.bodies) == FieldsEach(s.bodies) + (if d.oversize then [] else FieldsEach(d.bodies))
  {
    var s := FeedAll(taken, MAX_MESSAGE_BYTES);
    FeedSnoc(taken, chunk, MAX_MESSAGE_BYTES);
    FieldsEachConcat(s.bodies, Drain(s.buf + chunk, MAX_MESSAGE_BYTES).bodies);
    assert FieldsEach(s.bodies) + [] == FieldsEach(s.bodies);
  }

  /** One turn of the loop: append, decode, forward. */
  method ReadTurn(buf: ByteBuffer, before: Outbox, chunk: bytes, answers: nat -> Answer, ghost taken: seq<bytes>)
    returns (after: Outbox, failed: bool)
    requires After(taken, answers, buf.bytes, before, false)
    requires !before.closed
    modifies buf
    ensures After(taken + [chunk], answers, buf.bytes, after, failed)
  {
    ghost var earlier := FieldsEach(FeedAll(taken, MAX_MESSAGE_BYTES).bodies);
    ReadOne(taken, chunk);
    buf.bytes := buf.bytes + chunk;
    var r := TryDecodeAll(buf);
    match r {
      case Ok(ms) =>
        after := SendEach(before, ms, answers, earlier);
        failed := false;
      case Err =>
        assert earlier + [] == earlier;
        after, failed := before, true;
    }
  }

  /** Once it has stopped it stays stopped. */
  lemma {:induction false} StoppedStays(taken: seq<bytes>, more: seq<bytes>, answers: nat -> Answer)
    requires !Running(taken, answers)
    ensures !Running(taken + more, answers)
    decreases |more|
  {
    if more == [] {
      assert taken + more == taken;
    } else {
      var init, last := more[..|more| - 1], more[|more| - 1];
      StoppedStays(taken, init, answers);
      assert taken + more == (taken + init) + [last];
      var s := FeedAll(taken + init, MAX_MESSAGE_BYTES);
      FeedSnoc(taken + init, last, MAX_MESSAGE_BYTES);
      if !s.dead {
        var found := Drain(s.buf + last, MAX_MESSAGE_BYTES).bodies;
        FieldsEachConcat(s.bodies, found);
        ClosedStays(FieldsEach(s.bodies), FieldsEach(found), answers);
      }
    }
  }

  /** The receive task: read, decode and forward until end of file (an empty read), a decode error or
      a closed channel. It stops at the first of these and at nothing else. */
  method Receive(arrivals: seq<bytes>, answers: nat -> Answer)
    returns (used: nat, left: bytes, out: Outbox, failed: bool)
    ensures used <= |arrivals| && After(arrivals[..used], answers, left, out, failed)
    ensures used == |arrivals| || arrivals[used] == [] || !Running(arrivals[..used], answers)
    ensures forall i :: 0 <= i < used ==> arrivals[i] != []
    ensures used == 0 || Running(arrivals[..used - 1], answers)
  {
    var buf := new ByteBuffer([]);
    hide FeedAll, ForwardAll, FieldsEach;
    used, out, failed := 0, EMPTY_OUTBOX, false;
    NothingTaken(answers);
    assert arrivals[..0] == [];
    while used < |arrivals| && arrivals[used] != [] && !failed && !out.closed
      invariant used <= |arrivals|
      invariant After(arrivals[..used], answers, buf.bytes, out, failed)
      invariant forall i :: 0 <= i < used ==> arrivals[i] != []
      invariant used == 0 || Running(arrivals[..used - 1], answers)
    {
      out, failed := ReadTurn(buf, out, arrivals[used], answers, arrivals[..used]);
      assert arrivals[..used + 1] == arrivals[..used] + [arrivals[used]];
      used := used + 1;
    }
    left := buf.bytes;
  }

  // ---- Streams of messages, however they are cut ----

  function TerminatedEach(ms: seq<Message>): (payloads: seq<bytes>)
    ensures |payloads| == |ms|
  {
    if ms == [] then [] else [Terminated(ms[0])] + TerminatedEach(ms[1..])
  }

  lemma {:induction false} TerminatedEachAt(ms: seq<Message>, i: nat)
    requires i < |ms|
    ensures TerminatedEach(ms)[i] == Terminated(ms[i])
  {
    hide Terminated;
    if i > 0 {
      TerminatedEachAt(ms[1..], i - 1);
    }
  }

  lemma {:induction false} TerminatedEachPrefix(ms: seq<Message>, k: nat)
    requires k <= |ms|
    ensures TerminatedEach(ms[..k]) == TerminatedEach(ms)[..k]
  {
    hide Terminated;
    if k > 0 {
      assert ms[..k][1..] == ms[1..][..k - 1];
      TerminatedEachPrefix(ms[1..], k - 1);
    }
  }

  function EncodeAll(ms: seq<Message>): (stream: bytes) {
    PackAll(TerminatedEach(ms))
  }

  ghost predicate AllSendable(ms: seq<Message>) {
    forall i :: 0 <= i < |ms| ==> Sendable(ms[i])
  }

  lemma FieldsEachOfTerminatedEach(ms: seq<Message>)
    requires AllSendable(ms)
    ensures AllFit(TerminatedEach(ms), MAX_MESSAGE_BYTES) && FieldsEach(TerminatedEach(ms)) == ms
  {
    hide Terminated, Fields, FieldsEach, TerminatedEach, NulFree;
    var ps := TerminatedEach(ms);
    forall i | 0 <= i < |ms| ensures |ps[i]| <= MAX_MESSAGE_BYTES && FieldsEach(ps)[i] == ms[i] {
      TerminatedEachAt(ms, i);
      FieldsEachAt(ps, i);
      FieldsOfTerminated(ms[i]);
    }
  }

  /** Any messages, then any incomplete frame, cut in any way: exactly those messages are forwarded,
      in order, and exactly the incomplete frame is kept. */
  lemma EveryCutDelivers(ms: seq<Message>, partial: bytes, chunks: seq<bytes>)
    requires AllSendable(ms)
    requires Next(partial, MAX_MESSAGE_BYTES).NeedMore?
    requires Flatten(chunks) == EncodeAll(ms) + partial
    ensures var t := FeedAll(chunks, MAX_MESSAGE_BYTES);
            FieldsEach(t.bodies) == ms && t.buf == partial && !t.dead
  {
    FieldsEachOfTerminatedEach(ms);
    DrainComplete(TerminatedEach(ms), partial, MAX_MESSAGE_BYTES);
    FeedMatchesDrain(chunks, MAX_MESSAGE_BYTES);
  }

  /** A proper prefix of a frame is never mistaken for a frame. */
  lemma ProperPrefixNeedsMore(body: bytes, partial: bytes, cap: nat)
    requires |body| <= cap < U32_SIZE && partial < Pack(body)
    ensures Next(partial, cap).NeedMore?
  {
    hide Be32, FromBe32;
    if |partial| >= 4 {
      assert partial[..4] == Pack(body)[..4] == Be32(|body|);
      Be32RoundTrip(|body|);
      SmallModulus(|body|, U32_SIZE);
      assert FromBe32(partial[..4]) == |body|;
    }
  }

  /** Where a prefix of a stream of frames ends: after some whole frames and part of the next. */
  lemma {:induction false} PrefixOfFrames(bodies: seq<bytes>, s: bytes) returns (k: nat, partial: bytes)
    requires s <= PackAll(bodies)
    ensures k <= |bodies| && s == PackAll(bodies[..k]) + partial
    ensures if k == |bodies| then partial == [] else partial < Pack(bodies[k])
  {
    if bodies == [] {
      k, partial := 0, [];
    } else {
      var first, rest := Pack(bodies[0]), PackAll(bodies[1..]);
      if |s| < |first| {
        k, partial := 0, s;
        assert s == PackAll(bodies)[..|s|] == first[..|s|];
        assert PackAll(bodies[..0]) == [];
      } else {
        var tail := s[|first|..];
        assert s == (first + rest)[..|s|];
        assert tail == rest[..|tail|] && s == first + tail;
        k, partial := PrefixOfFrames(bodies[1..], tail);
        assert bodies[..k + 1] == [bodies[0]] + bodies[1..][..k];
        assert bodies[..k + 1][1..] == bodies[1..][..k];
        Associate(first, PackAll(bodies[1..][..k]), partial);
        k := k + 1;
      }
    }
  }

  lemma LengthsAgree(payloads: seq<bytes>, ms: seq<Message>)
    requires FieldsEach(payloads) == ms
    ensures |payloads| == |ms|
  {
  }

  lemma NextOfPartial(bodies: seq<bytes>, k: nat, partial: bytes)
    requires AllFit(bodies, MAX_MESSAGE_BYTES) && k <= |bodies|
    requires if k == |bodies| then partial == [] else partial < Pack(bodies[k])
    ensures Next(partial, MAX_MESSAGE_BYTES).NeedMore?
  {
    if k < |bodies| {
      ProperPrefixNeedsMore(bodies[k], partial, MAX_MESSAGE_BYTES);
    }
  }

  /** At every moment of a transmission: what has been forwarded is the messages that have fully
      arrived, and the buffer is the arrived part of the next one. */
  lemma PartialArrival(ms: seq<Message>, chunks: seq<bytes>)
    requires AllSendable(ms)
    requires Flatten(chunks) <= EncodeAll(ms)
    ensures var t := FeedAll(chunks, MAX_MESSAGE_BYTES);
            var n := |t.bodies|;
            && !t.dead && n <= |ms| && FieldsEach(t.bodies) == ms[..n]
            && Flatten(chunks) == EncodeAll(ms[..n]) + t.buf
            && (if n == |ms| then t.buf == [] else t.buf < Encode(ms[n]))
  {
    hide Terminated, FieldsEach, TerminatedEach, PackAll, FeedAll, Flatten, Sendable;
    var ps := TerminatedEach(ms);
    FieldsEachOfTerminatedEach(ms);
    var k, partial := PrefixOfFrames(ps, Flatten(chunks));
    NextOfPartial(ps, k, partial);
    TerminatedEachPrefix(ms, k);
    assert AllSendable(ms[..k]);
    EveryCutDelivers(ms[..k], partial, chunks);
    LengthsAgree(FeedAll(chunks, MAX_MESSAGE_BYTES).bodies, ms[..k]);
    if k < |ms| {
      TerminatedEachAt(ms, k);
    }
  }
}
