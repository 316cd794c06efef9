/** Byte strings, the big-endian length header, and concatenation of lists of byte strings. */
module Bytes {

  newtype byte = x: int | 0 <= x < 256

  type bytes = seq<byte>

  const U32_SIZE := 0x1_0000_0000

  /** `(n as u32).to_be_bytes()`: the cast keeps the low 32 bits, whatever `n` is. */
  function Be32(n: nat): (b: bytes)
    ensures |b| == 4
  {
    var m := n % U32_SIZE;
    [(m / 0x100_0000) as byte, ((m / 0x1_0000) % 256) as byte, ((m / 0x100) % 256) as byte, (m % 256) as byte]
  }

  /** `u32::from_be_bytes`. */
  function FromBe32(b: bytes): (n: nat)
    requires |b| == 4
    ensures n < U32_SIZE
  {
    ((b[0] as int * 256 + b[1] as int) * 256 + b[2] as int) * 256 + b[3] as int
  }

  lemma DivideTwice(n: nat)
    ensures n / 0x1_0000 == (n / 0x100) / 0x100 && n / 0x100_0000 == (n / 0x1_0000) / 0x100
  {
  }

  /** Writing a length and reading it back loses exactly the bits above the 32nd. */
  lemma Be32RoundTrip(n: nat)
    ensures FromBe32(Be32(n)) == n % U32_SIZE
  {
    DivideTwice(n % U32_SIZE);
  }

  lemma DivideOff(n: nat, high: nat, low: nat)
    requires low < 256 && n == high * 256 + low
    ensures n / 256 == high && n % 256 == low
  {
  }

  /** The base-256 digits of a number, from the nested form that reading a header computes. */
  lemma Base256(n: nat, x: nat, y: nat, z: nat, w: nat)
    requires x < 256 && y < 256 && z < 256 && w < 256
    requires n == ((x * 256 + y) * 256 + z) * 256 + w
    ensures n < U32_SIZE && n / 0x100_0000 == x
    ensures (n / 0x1_0000) % 256 == y && (n / 0x100) % 256 == z && n % 256 == w
  {
    var q := x * 256 + y;
    var p := q * 256 + z;
    DivideOff(n, p, w);
    DivideOff(p, q, z);
    DivideOff(q, x, y);
    DivideTwice(n);
  }

  /** Every four header bytes are the header of the length they spell. */
  lemma Be32OfFromBe32(b: bytes)
    requires |b| == 4
    ensures Be32(FromBe32(b)) == b
  {
    Base256(FromBe32(b), b[0] as int, b[1] as int, b[2] as int, b[3] as int);
    SmallModulus(FromBe32(b), U32_SIZE);
  }

  lemma SmallModulus(n: nat, m: nat)
    requires n < m
    ensures n % m == n
  {
  }

  /** The first place where two byte strings differ decides. */
  ghost predicate LexLess(a: bytes, b: bytes) {
    exists k :: 0 <= k < |a| && k < |b| && a[..k] == b[..k] && a[k] < b[k]
  }

  lemma ReadsInOrder(a: bytes, b: bytes, k: nat)
    requires |a| == |b| == 4 && k < 4 && a[..k] == b[..k] && a[k] < b[k]
    ensures FromBe32(a) < FromBe32(b)
  {
    assert forall i :: 0 <= i < k ==> a[i] == a[..k][i] && b[i] == b[..k][i];
  }

  lemma FirstDifference(a: bytes, b: bytes) returns (k: nat)
    requires |a| == |b| && a != b
    ensures k < |a| && a[..k] == b[..k] && a[k] != b[k]
  {
    k := 0;
    while k < |a| && a[k] == b[k]
      invariant k <= |a| && a[..k] == b[..k]
    {
      k := k + 1;
    }
    assert a[..|a|] == a && b[..|b|] == b;
  }

  /** Headers, most significant byte first, are in the order of the lengths they spell. */
  lemma HeadersOrderAsLengths(a: bytes, b: bytes)
    requires |a| == |b| == 4
    ensures LexLess(a, b) <==> FromBe32(a) < FromBe32(b)
  {
    if LexLess(a, b) {
      var k :| 0 <= k < |a| && k < |b| && a[..k] == b[..k] && a[k] < b[k];
      ReadsInOrder(a, b, k);
    } else if a != b {
      var k := FirstDifference(a, b);
      ReadsInOrder(b, a, k);
    }
  }

  /** And so are the headers that lengths are written as. */
  lemma LengthsOrderAsHeaders(m: nat, n: nat)
    requires m < U32_SIZE && n < U32_SIZE
    ensures m < n <==> LexLess(Be32(m), Be32(n))
  {
    HeadersOrderAsLengths(Be32(m), Be32(n));
    Be32RoundTrip(m);
    Be32RoundTrip(n);
    SmallModulus(m, U32_SIZE);
    SmallModulus(n, U32_SIZE);
  }

  lemma Associate<T>(a: seq<T>, b: seq<T>, c: seq<T>)
    ensures (a + b) + c == a + (b + c)
  {
  }

  function Flatten<T>(parts: seq<seq<T>>): (s: seq<T>)
  {
    if parts == [] then [] else parts[0] + Flatten(parts[1..])
  }

  lemma {:induction false} FlattenConcat<T>(a: seq<seq<T>>, b: seq<seq<T>>)
    ensures Flatten(a + b) == Flatten(a) + Flatten(b)
  {
    if a == [] {
      assert a + b == b;
    } else {
      assert (a + b)[1..] == a[1..] + b;
      FlattenConcat(a[1..], b);
    }
  }

  lemma FlattenSnoc<T>(a: seq<seq<T>>, last: seq<T>)
    ensures Flatten(a + [last]) == Flatten(a) + last
  {
    FlattenConcat(a, [last]);
    assert Flatten([last]) == last + Flatten([]);
  }
}
