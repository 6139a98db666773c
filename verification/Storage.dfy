/** Object storage: keys, prefix deletion, and the file-like wrapper around a
    chunk iterator (backend/app/services/storage.py). */
module Storage {
  import opened Bytes

  /** A reader over an iterator of chunks. `it` holds the chunks the iterator has
      not delivered yet and `buf` the undelivered part of the current chunk. */
  class IteratorIO {
    var it: seq<bytes>
    var buf: bytes

    /** Everything this reader can still deliver. */
    ghost function Rest(): bytes
      reads this
    {
      buf + Flatten(it)
    }

    constructor (chunks: seq<bytes>)
      ensures Rest() == Flatten(chunks)
    {
      it, buf := chunks, [];
    }

    /** Fills a prefix of `b`. Zero bytes are delivered only into an empty buffer
        or at true exhaustion: empty chunks are skipped, never reported. */
    method ReadInto(b: array<byte>) returns (n: nat)
      modifies this, b
      ensures n <= b.Length && n <= |old(Rest())|
      ensures b[..n] == old(Rest())[..n] && b[n..] == old(b[n..])
      ensures Rest() == old(Rest())[n..]
      ensures n == 0 <==> b.Length == 0 || old(Rest()) == []
    {
      while buf == []
        invariant Rest() == old(Rest()) && b[..] == old(b[..])
        decreases |it|
      {
        if it == [] {
          return 0;
        }
        buf, it := it[0], it[1..];
      }
      ghost var whole := Rest();
      n := Min(b.Length, |buf|);
      for i := 0 to n
        modifies b
        invariant b[..i] == buf[..i] && b[n..] == old(b[n..])
      {
        b[i] := buf[i];
        assert b[..i + 1] == b[..i] + [b[i]] == buf[..i + 1];
      }
      buf := buf[n..];
      assert Rest() == whole[n..];
    }

    /** The raw read: one ReadInto over a fresh buffer of the requested size. */
    method Read(size: nat) returns (data: bytes)
      modifies this
      ensures |data| <= size && data + Rest() == old(Rest())
      ensures data == [] <==> size == 0 || old(Rest()) == []
    {
      var b := new byte[size](_ => 0);
      var n := ReadInto(b);
      data := b[..n];
    }
  }

  /** A consumer that reads until the first empty read, asking for `sizes(i)` bytes
      the i-th time. It gets the chunks' concatenation however the iterator was
      chunked (empty chunks included) and whatever it asked for: an empty read is
      a reliable end-of-file mark. */
  method Drain(chunks: seq<bytes>, sizes: nat -> nat) returns (data: bytes)
    requires forall i :: sizes(i) > 0
    ensures data == Flatten(chunks)
  {
    var io := new IteratorIO(chunks);
    data := [];
    var i := 0;
    while true
      invariant data + io.Rest() == Flatten(chunks)
      decreases |io.Rest()|
    {
      ghost var left := io.Rest();
      var part := io.Read(sizes(i));
      if part == [] {
        break;
      }
      Associate(data, part, io.Rest(), left);
      data := data + part;
      i := i + 1;
    }
  }

  /** Object names are `{transfer}/{file}.enc`. */
  function ObjectKey(transfer: string, file: string): string {
    transfer + "/" + file + ".enc"
  }

  function Prefix(transfer: string): string {
    transfer + "/"
  }

  /** An identifier printed as text: never contains the separator. */
  predicate PlainId(id: string) {
    '/' !in id
  }

  lemma KeyBelongsTo(transfer: string, other: string, file: string)
    requires PlainId(transfer) && PlainId(other)
    ensures Prefix(other) <= ObjectKey(transfer, file) <==> transfer == other
  {
    var key := ObjectKey(transfer, file);
    if Prefix(other) <= key {
      assert key[|transfer|] == '/' == key[|other|];
      assert forall i :: 0 <= i < |transfer| ==> key[i] == transfer[i] != '/';
      assert forall i :: 0 <= i < |other| ==> key[i] == other[i] != '/';
      assert transfer == key[..|transfer|] == other;
    }
    assert Prefix(transfer) == key[..|transfer| + 1];
  }

  lemma ObjectKeyInjective(t1: string, f1: string, t2: string, f2: string)
    requires PlainId(t1) && PlainId(t2)
    requires ObjectKey(t1, f1) == ObjectKey(t2, f2)
    ensures t1 == t2 && f1 == f2
  {
    assert Prefix(t1) == ObjectKey(t1, f1)[..|t1| + 1];
    KeyBelongsTo(t2, t1, f2);
    var key := ObjectKey(t1, f1);
    assert f1 == key[|t1| + 1..|key| - 4];
    assert f2 == key[|t2| + 1..|key| - 4];
  }

  type Objects = map<string, bytes>

  /** Deletes every object under the transfer's prefix except the ones the store
      refuses to delete (`stuck`), which is when the caller sees an error. */
  function DeleteTransfer(objects: Objects, transfer: string, stuck: set<string>): Objects {
    map key | key in objects && (!(Prefix(transfer) <= key) || key in stuck) :: objects[key]
  }

  /** Deleting one transfer touches no object of any other transfer, and without
      refusals leaves none of its own. */
  lemma DeleteTransferIsExact(objects: Objects, transfer: string, stuck: set<string>, other: string, file: string)
    requires PlainId(transfer) && PlainId(other)
    ensures var after := DeleteTransfer(objects, transfer, stuck);
            var key := ObjectKey(other, file);
            && (key in after <==> key in objects && (other != transfer || key in stuck))
            && (key in after ==> after[key] == objects[key])
  {
    KeyBelongsTo(other, transfer, file);
  }
}
