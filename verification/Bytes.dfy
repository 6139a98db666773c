/** Byte strings, sizes and the small vocabulary shared by every component. */
module Bytes {

  type byte = bv8
  type bytes = seq<byte>

  /** AES-256 keys: master keys and file keys alike. */
  const KEY_LEN := 32

  /** The unit in which request bodies and files are read. */
  const CHUNK := 64 * 1024

  datatype Option<+T> = None | Some(value: T)

  datatype Result<+T, +E> = Ok(value: T) | Err(error: E)

  function Min(a: int, b: int): int {
    if a <= b then a else b
  }

  function Max(a: int, b: int): int {
    if a <= b then b else a
  }

  function Elements<T(==)>(s: seq<T>): set<T> {
    set x | x in s
  }

  function Zeros(n: nat): bytes {
    seq(n, _ => 0)
  }

  /** The bytes an iterator of chunks delivers, in order. */
  function Flatten(chunks: seq<bytes>): bytes {
    if chunks == [] then [] else chunks[0] + Flatten(chunks[1..])
  }

  lemma {:induction false} FlattenConcat(a: seq<bytes>, b: seq<bytes>)
    ensures Flatten(a + b) == Flatten(a) + Flatten(b)
  {
    if a == [] {
      assert a + b == b;
    } else {
      assert (a + b)[1..] == a[1..] + b;
      FlattenConcat(a[1..], b);
    }
  }

  lemma FlattenSnoc(a: seq<bytes>, last: bytes)
    ensures Flatten(a + [last]) == Flatten(a) + last
  {
    FlattenConcat(a, [last]);
    assert Flatten([last]) == last + Flatten([]);
  }

  function Xor(a: bytes, b: bytes): (c: bytes)
    requires |a| == |b|
    ensures |c| == |a|
  {
    seq(|a|, i requires 0 <= i < |a| => a[i] ^ b[i])
  }

  lemma XorTwice(a: bytes, b: bytes)
    requires |a| == |b|
    ensures Xor(Xor(a, b), b) == a
  {
    forall i | 0 <= i < |a| ensures Xor(Xor(a, b), b)[i] == a[i] {
      XorByteTwice(a[i], b[i]);
    }
  }

  lemma XorByteTwice(x: byte, y: byte)
    ensures (x ^ y) ^ y == x
  {
  }

  /** A number below 256 is the value of its byte; by ranges, which the solver takes better. */
  lemma ByteRoundTrip(n: nat)
    requires n < 256
    ensures (n as byte) as int == n
  {
    if n < 64 {
      ByteBelow64(n);
    } else if n < 128 {
      ByteBelow128(n);
    } else if n < 160 {
      ByteBelow160(n);
    } else if n < 192 {
      ByteBelow192(n);
    } else {
      ByteBelow256(n);
    }
  }

  lemma ByteBelow64(n: nat)
    requires n < 64
    ensures (n as byte) as int == n
  {
  }

  lemma ByteBelow128(n: nat)
    requires 64 <= n < 128
    ensures (n as byte) as int == n
  {
  }

  lemma ByteBelow160(n: nat)
    requires 128 <= n < 160
    ensures (n as byte) as int == n
  {
  }

  lemma ByteBelow192(n: nat)
    requires 160 <= n < 192
    ensures (n as byte) as int == n
  {
  }

  lemma ByteBelow256(n: nat)
    requires 192 <= n < 256
    ensures (n as byte) as int == n
  {
  }

  lemma Associate(done: bytes, part: bytes, rest: bytes, left: bytes)
    requires left == part + rest
    ensures (done + part) + rest == done + left
  {
  }
}
