/** File-like objects: the sources and sinks that loops read from and write to. */
module Streams {
  import opened Bytes

  /** A file-like source. A read may be short, but is empty only when nothing was
      asked for or nothing is left. */
  class ByteSource {
    var rest: bytes

    constructor (content: bytes)
      ensures rest == content
    {
      rest := content;
    }

    method Read(size: nat) returns (data: bytes)
      modifies this
      ensures |data| <= size && data + rest == old(rest)
      ensures data == [] <==> size == 0 || old(rest) == []
    {
      var most := Min(size, |rest|);
      assert most <= most && (most > 0 ==> most > 0);
      var n: nat :| n <= most && (most > 0 ==> n > 0);
      data, rest := rest[..n], rest[n..];
    }
  }

  class ByteSink {
    var contents: bytes

    constructor ()
      ensures contents == []
    {
      contents := [];
    }

    method Write(data: bytes)
      modifies this
      ensures contents == old(contents) + data
    {
      contents := contents + data;
    }
  }
}
