/** The shared-memory wire protocol: packing one body and unpacking a buffer of frames in place. */
module IpcProtocol {
  import opened Bytes
  import opened Framing
  import opened Wrappers

  const MAX_FRAME_BYTES := 4 * 1024 * 1024

  method PackFrame(body: bytes) returns (out: bytes)
    ensures out == Pack(body)
    ensures |body| <= MAX_FRAME_BYTES ==> forall tail :: Next(out + tail, MAX_FRAME_BYTES) == Frame(body, tail)
  {
    out := Be32(|body|);
    out := out + body;
    if |body| <= MAX_FRAME_BYTES {
      forall tail ensures Next(out + tail, MAX_FRAME_BYTES) == Frame(body, tail) {
        NextOfPack(body, tail, MAX_FRAME_BYTES);
      }
    }
  }

  method TryUnpackFrame(buf: ByteBuffer) returns (r: Result<Option<bytes>>)
    modifies buf
    ensures match Next(old(buf.bytes), MAX_FRAME_BYTES)
            case NeedMore => r == Ok(None) && buf.bytes == old(buf.bytes)
            case Oversize => r == Err && buf.bytes == old(buf.bytes)
            case Frame(body, rest) => r == Ok(Some(body)) && buf.bytes == rest
  {
    if |buf.bytes| < 4 {
      return Ok(None);
    }
    var size := FromBe32(buf.bytes[..4]);
    if size > MAX_FRAME_BYTES {
      return Err;
    }
    if |buf.bytes| < 4 + size {
      return Ok(None);
    }
    r := Ok(Some(buf.bytes[4..4 + size]));
    buf.bytes := buf.bytes[4 + size..];
  }

  /** On a bad header the error replaces the bodies already found, and the buffer keeps the header. */
  method UnpackAllFrames(buf: ByteBuffer) returns (r: Result<seq<bytes>>)
    modifies buf
    ensures var d := Drain(old(buf.bytes), MAX_FRAME_BYTES);
            buf.bytes == d.rest && r == if d.oversize then Err else Ok(d.bodies)
  {
    hide Next;
    var out: seq<bytes> := [];
    while true
      invariant var d := Drain(old(buf.bytes), MAX_FRAME_BYTES);
                var e := Drain(buf.bytes, MAX_FRAME_BYTES);
                d == Drained(out + e.bodies, e.rest, e.oversize)
      decreases |buf.bytes|
    {
      ghost var e := Drain(buf.bytes, MAX_FRAME_BYTES);
      var step := TryUnpackFrame(buf);
      match step {
        case Err => return Err;
        case Ok(None) =>
          assert out + e.bodies == out;
          return Ok(out);
        case Ok(Some(body)) =>
          assert out + e.bodies == (out + [body]) + e.bodies[1..];
          out := out + [body];
      }
    }
  }
}
