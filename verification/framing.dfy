/**
 Length-prefixed framing, as used by both the shared-memory protocol and the IBKR wire codec:
 a 4-byte big-endian length followed by that many bytes. The two users differ only in the size
 cap, which is a parameter here.
 */
module Framing {
  import opened Bytes

  /** What the front of a buffer holds. */
  datatype Front = NeedMore | Oversize | Frame(body: bytes, rest: bytes)

  /** The growable buffer that callers pass by mutable reference. */
  class ByteBuffer {
    var bytes: bytes

    constructor (initial: bytes)
      ensures bytes == initial
    {
      bytes := initial;
    }
  }

  function Pack(body: bytes): (frame: bytes)
    ensures |frame| == 4 + |body|
  {
    Be32(|body|) + body
  }

  function PackAll(bodies: seq<bytes>): (stream: bytes)
  {
    if bodies == [] then [] else Pack(bodies[0]) + PackAll(bodies[1..])
  }

  function Next(buf: bytes, cap: nat): (f: Front)
    ensures f.Frame? ==> |f.rest| < |buf|
  {
    if |buf| < 4 then NeedMore
    else
      var size := FromBe32(buf[..4]);
      if size > cap then Oversize
      else if |buf| < 4 + size then NeedMore
      else Frame(buf[4..4 + size], buf[4 + size..])
  }

  /** Everything a draining loop finds: the complete bodies, what is left, and how it stopped. */
  datatype Drained = Drained(bodies: seq<bytes>, rest: bytes, oversize: bool)

  function Drain(buf: bytes, cap: nat): (d: Drained)
    decreases |buf|
  {
    match Next(buf, cap)
    case NeedMore => Drained([], buf, false)
    case Oversize => Drained([], buf, true)
    case Frame(body, rest) =>
      var d := Drain(rest, cap);
      Drained([body] + d.bodies, d.rest, d.oversize)
  }

  ghost predicate AllFit(bodies: seq<bytes>, cap: nat) {
    forall i :: 0 <= i < |bodies| ==> |bodies[i]| <= cap
  }

  lemma {:induction false} PackAllConcat(a: seq<bytes>, b: seq<bytes>)
    ensures PackAll(a + b) == PackAll(a) + PackAll(b)
  {
    if a == [] {
      assert a + b == b;
    } else {
      assert (a + b)[1..] == a[1..] + b;
      PackAllConcat(a[1..], b);
    }
  }

  /** A packed body at the front of a buffer is recognised, whatever follows it. */
  lemma NextOfPack(body: bytes, tail: bytes, cap: nat)
    requires |body| <= cap < U32_SIZE
    ensures Next(Pack(body) + tail, cap) == Frame(body, tail)
  {
    hide Be32, FromBe32;
    var buf := Pack(body) + tail;
    Be32RoundTrip(|body|);
    SmallModulus(|body|, U32_SIZE);
    assert buf[..4] == Be32(|body|);
    assert FromBe32(buf[..4]) == |body|;
    assert buf[4..4 + |body|] == body;
    assert buf[4 + |body|..] == tail;
  }

  /** Conversely a recognised frame is the packing of its body. */
  lemma NextIsPack(buf: bytes, cap: nat)
    requires Next(buf, cap).Frame?
    ensures var f := Next(buf, cap); buf == Pack(f.body) + f.rest && |f.body| <= cap
  {
    Be32OfFromBe32(buf[..4]);
    var size := FromBe32(buf[..4]);
    assert buf == buf[..4] + buf[4..4 + size] + buf[4 + size..];
    assert Be32(size) == buf[..4];
  }

  /** Draining splits the buffer without losing or inventing a byte, and stops only when it must. */
  lemma {:induction false} DrainSound(buf: bytes, cap: nat)
    ensures var d := Drain(buf, cap);
            && buf == PackAll(d.bodies) + d.rest
            && AllFit(d.bodies, cap)
            && Next(d.rest, cap) == (if d.oversize then Oversize else NeedMore)
    decreases |buf|
  {
    if Next(buf, cap).Frame? {
      var f := Next(buf, cap);
      NextIsPack(buf, cap);
      DrainSound(f.rest, cap);
      var d := Drain(f.rest, cap);
      assert ([f.body] + d.bodies)[1..] == d.bodies;
    }
  }

  /** And it is the only such split: any list of fitting bodies is recovered in order. */
  lemma {:induction false} DrainComplete(bodies: seq<bytes>, rest: bytes, cap: nat)
    requires cap < U32_SIZE && AllFit(bodies, cap)
    requires !Next(rest, cap).Frame?
    ensures Drain(PackAll(bodies) + rest, cap) == Drained(bodies, rest, Next(rest, cap).Oversize?)
  {
    if bodies == [] {
      assert PackAll(bodies) + rest == rest;
    } else {
      var tail := PackAll(bodies[1..]) + rest;
      assert PackAll(bodies) + rest == Pack(bodies[0]) + tail;
      NextOfPack(bodies[0], tail, cap);
      DrainComplete(bodies[1..], rest, cap);
      assert bodies == [bodies[0]] + bodies[1..];
    }
  }

  /** Once oversize, a buffer stays oversize: more input cannot repair a bad header. */
  lemma OversizeIsFinal(buf: bytes, more: bytes, cap: nat)
    requires Next(buf, cap).Oversize?
    ensures Next(buf + more, cap).Oversize?
  {
    assert (buf + more)[..4] == buf[..4];
  }

  /** Draining can be interrupted anywhere: what is left over is exactly the state to resume from. */
  lemma DrainResumes(buf: bytes, more: bytes, cap: nat)
    requires cap < U32_SIZE
    ensures var d := Drain(buf, cap);
            var whole := Drain(buf + more, cap);
            if d.oversize then whole == Drained(d.bodies, d.rest + more, true)
            else
              var e := Drain(d.rest + more, cap);
              whole == Drained(d.bodies + e.bodies, e.rest, e.oversize)
  {
    var d := Drain(buf, cap);
    DrainSound(buf, cap);
    Associate(PackAll(d.bodies), d.rest, more);
    if d.oversize {
      OversizeIsFinal(d.rest, more, cap);
      DrainComplete(d.bodies, d.rest + more, cap);
    } else {
      var e := Drain(d.rest + more, cap);
      DrainSound(d.rest + more, cap);
      Associate(PackAll(d.bodies), PackAll(e.bodies), e.rest);
      PackAllConcat(d.bodies, e.bodies);
      DrainComplete(d.bodies + e.bodies, e.rest, cap);
    }
  }

  // ---- A receive loop fed chunk by chunk ----

  /** Buffer kept between reads, bodies delivered so far, and whether the loop has given up. */
  datatype Feed = Feed(buf: bytes, bodies: seq<bytes>, dead: bool)

  /** One read: append, drain, deliver. A bad header ends the loop, and with it the bodies the same
      drain had already found: the drain returns an error in place of its list. */
  function FeedChunk(s: Feed, chunk: bytes, cap: nat): (t: Feed)
  {
    if s.dead then s
    else
      var d := Drain(s.buf + chunk, cap);
      if d.oversize then Feed(d.rest, s.bodies, true)
      else Feed(d.rest, s.bodies + d.bodies, false)
  }

  function FeedAll(chunks: seq<bytes>, cap: nat): (t: Feed)
  {
    if chunks == [] then Feed([], [], false)
    else FeedChunk(FeedAll(chunks[..|chunks| - 1], cap), chunks[|chunks| - 1], cap)
  }

  lemma FeedSnoc(chunks: seq<bytes>, last: bytes, cap: nat)
    ensures FeedAll(chunks + [last], cap) == FeedChunk(FeedAll(chunks, cap), last, cap)
  {
    assert (chunks + [last])[..|chunks|] == chunks;
  }

  /** How the loop stands after any cutting of a stream, in terms of the uncut stream alone. */
  lemma {:induction false} FeedMatchesDrain(chunks: seq<bytes>, cap: nat)
    requires cap < U32_SIZE
    ensures var d := Drain(Flatten(chunks), cap);
            var t := FeedAll(chunks, cap);
            && t.dead == d.oversize
            && (if d.oversize then t.bodies <= d.bodies else t == Feed(d.rest, d.bodies, false))
  {
    if chunks != [] {
      var init, last := chunks[..|chunks| - 1], chunks[|chunks| - 1];
      assert chunks == init + [last];
      FlattenSnoc(init, last);
      FeedMatchesDrain(init, cap);
      DrainResumes(Flatten(init), last, cap);
    }
  }

  /** For any stream, all ways of cutting it deliver the same bodies exactly when no complete frame
      precedes an oversize header. */
  lemma ChunkingIrrelevantIff(stream: bytes, cap: nat)
    requires cap < U32_SIZE
    ensures var d := Drain(stream, cap);
            (forall chunks: seq<bytes> :: Flatten(chunks) == stream ==>
                FeedAll(chunks, cap).bodies == FeedAll([stream], cap).bodies)
            <==> !(d.oversize && d.bodies != [])
  {
    var d := Drain(stream, cap);
    assert Flatten([stream]) == stream + Flatten([]) == stream;
    FeedMatchesDrain([stream], cap);
    if d.oversize && d.bodies != [] {
      SplitBeforeOversize(stream, cap);
    } else {
      forall chunks: seq<bytes> | Flatten(chunks) == stream
        ensures FeedAll(chunks, cap).bodies == FeedAll([stream], cap).bodies
      {
        FeedMatchesDrain(chunks, cap);
      }
    }
  }

  lemma FeedTwo(first: bytes, second: bytes, cap: nat)
    ensures Flatten([first, second]) == first + second
    ensures FeedAll([first], cap) == FeedChunk(Feed([], [], false), first, cap)
    ensures FeedAll([first, second], cap) == FeedChunk(FeedAll([first], cap), second, cap)
  {
    FlattenSnoc([], first);
    FlattenSnoc([first], second);
    FeedSnoc([], first, cap);
    FeedSnoc([first], second, cap);
    assert [] + [first] == [first] && [first] + [second] == [first, second];
  }

  /** A stream that depends on its cutting, for every cap below the largest header: one empty frame and
      a header of four 255s. */
  lemma EmptyThenOversize(cap: nat)
    requires cap < U32_SIZE - 1
    ensures Drain(PackAll([[]]) + [255, 255, 255, 255], cap) == Drained([[]], [255, 255, 255, 255], true)
  {
    var bad: bytes := [255, 255, 255, 255];
    assert bad[..4] == bad && FromBe32(bad) == U32_SIZE - 1;
    DrainComplete([[]], bad, cap);
  }

  /** Reading the good frames and the bad header separately delivers the good frames; reading them
      together delivers nothing. */
  lemma SplitBeforeOversize(stream: bytes, cap: nat)
    requires cap < U32_SIZE
    requires var d := Drain(stream, cap); d.oversize && d.bodies != []
    ensures var d := Drain(stream, cap);
            var chunks := [PackAll(d.bodies), d.rest];
            && Flatten(chunks) == stream
            && FeedAll(chunks, cap).bodies == d.bodies
            && FeedAll([stream], cap).bodies == []
  {
    var d := Drain(stream, cap);
    DrainSound(stream, cap);
    FeedTwo(PackAll(d.bodies), d.rest, cap);
    FeedTwo(stream, [], cap);
    DrainComplete(d.bodies, [], cap);
    assert PackAll(d.bodies) + [] == [] + PackAll(d.bodies) == PackAll(d.bodies);
    assert [] + d.rest == d.rest && [] + stream == stream;
  }
}
