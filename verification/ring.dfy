/** The shared-memory byte ring, used by one producer and one consumer. */
module Ring {
  import opened Bytes

  /** The cell of the data region that an unbounded stream offset names. */
  function Cell(offset: nat, capacity: nat): (c: nat)
    requires capacity > 0
    ensures c < capacity
  {
    offset % capacity
  }

  /** Division is determined by its equation. */
  lemma QuotientUnique(q: int, low: nat, capacity: nat)
    requires capacity > 0 && low < capacity
    ensures (q * capacity + low) % capacity == low
  {
    var n := q * capacity + low;
    var d := n / capacity - q;
    assert d * capacity == low - n % capacity;
    assert d >= 1 ==> d * capacity >= capacity;
    assert d <= -1 ==> d * capacity <= -1 * capacity;
  }

  /** The cell `k` places further on, by the one wrap-around the copies allow for. */
  lemma CellAfter(offset: nat, k: nat, capacity: nat)
    requires capacity > 0 && k <= capacity
    ensures var at := Cell(offset, capacity) + k;
            Cell(offset + k, capacity) == if at < capacity then at else at - capacity
  {
    var q, at := offset / capacity, Cell(offset, capacity) + k;
    assert offset + k == q * capacity + at == (q + 1) * capacity + (at - capacity);
    if at < capacity {
      QuotientUnique(q, at, capacity);
    } else {
      QuotientUnique(q + 1, at - capacity, capacity);
    }
  }

  /** Offsets less than one lap apart name different cells. */
  lemma DistinctCells(i: nat, j: nat, capacity: nat)
    requires capacity > 0 && i < j < i + capacity
    ensures Cell(i, capacity) != Cell(j, capacity)
  {
    CellAfter(i, j - i, capacity);
  }

  class Ring {
    const data: array<byte>
    var written: nat
    var read: nat
    var framesDropped: nat

    predicate Valid()
      reads this
    {
      && data.Length > 0
      && read <= written <= read + data.Length
    }

    /** The published bytes that have not been read, oldest first. */
    ghost function Unread(): (s: bytes)
      requires Valid()
      reads this, data
      ensures |s| == written - read
    {
      seq(written - read, i requires 0 <= i < written - read reads this, data
                            => data[Cell(read + i, data.Length)])
    }

    /** `create_owner`: a fresh mapping of the given capacity with both offsets at zero. */
    constructor CreateOwner(capacity: nat)
      requires capacity > 0
      ensures Valid() && fresh(data) && data.Length == capacity
      ensures Unread() == [] && written == 0 && framesDropped == 0
    {
      data := new byte[capacity];
      written, read, framesDropped := 0, 0, 0;
    }

    /** `copy_from_slice` into the data region. */
    method CopyIn(at: nat, src: bytes)
      requires at + |src| <= data.Length
      modifies data
      ensures forall i :: 0 <= i < |src| ==> data[at + i] == src[i]
      ensures forall c :: 0 <= c < data.Length && !(at <= c < at + |src|) ==> data[c] == old(data[c])
    {
      for i := 0 to |src|
        invariant forall k :: 0 <= k < i ==> data[at + k] == src[k]
        invariant forall c :: 0 <= c < data.Length && !(at <= c < at + i) ==> data[c] == old(data[c])
      {
        data[at + i] := src[i];
      }
    }

    /** The wrap-around copy from a position on: at most two slices, and nothing else is touched. */
    method CopyAround(pos: nat, frame: bytes)
      requires pos < data.Length && |frame| <= data.Length
      modifies data
      ensures forall i :: 0 <= i < |frame| && pos + i < data.Length ==> data[pos + i] == frame[i]
      ensures forall i :: 0 <= i < |frame| && data.Length <= pos + i ==> data[pos + i - data.Length] == frame[i]
      ensures forall c :: 0 <= c < data.Length && !(pos <= c < pos + |frame|) && !(c + data.Length < pos + |frame|) ==>
                data[c] == old(data[c])
    {
      var end := pos + |frame|;
      if end <= data.Length {
        CopyIn(pos, frame);
      } else {
        var tail := data.Length - pos;
        CopyIn(pos, frame[..tail]);
        CopyIn(0, frame[tail..]);
        forall i | 0 <= i < |frame| && data.Length <= pos + i ensures data[pos + i - data.Length] == frame[i] {
          assert frame[tail..][i - tail] == frame[i];
        }
      }
    }

    /** Copying at an offset fills the `|frame|` cells from there on and keeps the lap behind them. */
    method CopyFrame(offset: nat, frame: bytes)
      requires 0 < data.Length && |frame| <= data.Length
      modifies data
      ensures forall i :: 0 <= i < |frame| ==> data[Cell(offset + i, data.Length)] == frame[i]
      ensures forall j: nat :: j < offset && offset + |frame| <= j + data.Length ==>
                data[Cell(j, data.Length)] == old(data[Cell(j, data.Length)])
    {
      var pos := offset % data.Length;
      assert pos == Cell(offset, data.Length);
      hide Cell;
      CopyAround(pos, frame);
      forall i | 0 <= i < |frame| ensures data[Cell(offset + i, data.Length)] == frame[i] {
        CellAfter(offset, i, data.Length);
      }
      forall j: nat | j < offset && offset + |frame| <= j + data.Length
        ensures data[Cell(j, data.Length)] == old(data[Cell(j, data.Length)])
      {
        CellAfter(j, offset - j, data.Length);
      }
    }

    /** Accepts a frame exactly when it is at most half the ring and fits in the free space; a
        refusal changes nothing but the drop counter. */
    method WriteFrame(frame: bytes) returns (ok: bool)
      requires Valid()
      modifies this`written, this`framesDropped, data
      ensures Valid()
      ensures ok == (|frame| <= data.Length / 2 && |frame| <= data.Length - (old(written) - old(read)))
      ensures Unread() == if ok then old(Unread()) + frame else old(Unread())
      ensures written == old(written) + if ok then |frame| else 0
      ensures framesDropped == old(framesDropped) + if ok then 0 else 1
    {
      var n := |frame|;
      if n > data.Length / 2 {
        framesDropped := framesDropped + 1;
        return false;
      }
      var free := data.Length - (written - read);
      if free < n {
        framesDropped := framesDropped + 1;
        return false;
      }
      CopyFrame(written, frame);
      written := written + n;
      ok := true;
    }

    /** Takes everything published and unread, in order, and leaves the ring empty. */
    method ReadAvailable() returns (chunk: bytes)
      requires Valid()
      modifies this`read
      ensures Valid()
      ensures chunk == old(Unread()) && Unread() == []
      ensures read == written
    {
      var avail := if written >= read then written - read else 0;
      if avail == 0 {
        return [];
      }
      var pos := read % data.Length;
      var end := pos + avail;
      if end <= data.Length {
        chunk := data[pos..end];
      } else {
        var tail := data.Length - pos;
        chunk := data[pos..] + data[..avail - tail];
      }
      forall i | 0 <= i < avail ensures chunk[i] == data[Cell(read + i, data.Length)] {
        CellAfter(read, i, data.Length);
      }
      assert chunk == Unread();
      read := read + avail;
    }
  }
}
