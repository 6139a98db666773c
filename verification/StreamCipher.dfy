/** Streaming AES-256-GCM (backend/app/crypto/stream.py). The block cipher, GHASH and
    SHA-256 are library code and appear as parameters: a keystream byte for every
    position, a 16-byte tag of a ciphertext, and a digest. What is proved is the
    chunking, the held-back window and the end-of-file handling, for every choice of
    those parameters. */
module StreamCipher {
  import opened Bytes
  import opened Storage
  import opened Streams

  const IV_LEN := 12
  const TAG_LEN := 16

  type Tag = t: bytes | |t| == TAG_LEN witness seq(TAG_LEN, _ => 0)

  /** Any keystream, any tag function with 16-byte tags, any digest. */
  datatype Suite = Suite(
    keystream: (bytes, bytes, nat) -> byte,   // key, iv, position
    tag: (bytes, bytes, bytes) -> Tag,        // key, iv, ciphertext
    sha256: bytes -> bytes)

  datatype StreamError = BadKeyLength | BadIvLength | TooShort | AuthenticationFailed

  /** Counter mode: encryption and decryption are the same masking. */
  function Mask(s: Suite, key: bytes, iv: bytes, position: nat, data: bytes): (r: bytes)
    ensures |r| == |data|
  {
    seq(|data|, i requires 0 <= i < |data| => data[i] ^ s.keystream(key, iv, position + i))
  }

  lemma MaskConcat(s: Suite, key: bytes, iv: bytes, position: nat, a: bytes, b: bytes)
    ensures Mask(s, key, iv, position, a + b)
         == Mask(s, key, iv, position, a) + Mask(s, key, iv, position + |a|, b)
  {
    var whole := Mask(s, key, iv, position, a + b);
    var parts := Mask(s, key, iv, position, a) + Mask(s, key, iv, position + |a|, b);
    forall i | 0 <= i < |whole| ensures whole[i] == parts[i] {
      if i >= |a| {
        assert (a + b)[i] == b[i - |a|];
        assert position + i == position + |a| + (i - |a|);
      }
    }
  }

  lemma MaskTwice(s: Suite, key: bytes, iv: bytes, position: nat, data: bytes)
    ensures Mask(s, key, iv, position, Mask(s, key, iv, position, data)) == data
  {
    var twice := Mask(s, key, iv, position, Mask(s, key, iv, position, data));
    forall i | 0 <= i < |data| ensures twice[i] == data[i] {
      XorByteTwice(data[i], s.keystream(key, iv, position + i));
    }
  }

  /** A cipher context: everything fed to it so far, on the ciphertext side. */
  datatype Context = Context(key: bytes, iv: bytes, seen: bytes)

  // ---- Reference definitions: whole-message encryption and decryption ----

  function Seal(s: Suite, key: bytes, iv: bytes, plain: bytes): bytes {
    var text := Mask(s, key, iv, 0, plain);
    text + s.tag(key, iv, text)
  }

  /** Stored content split at the tag; the tag part is shorter than TAG_LEN exactly
      when the content is. */
  datatype Window = Window(passed: bytes, held: bytes)

  function Split(content: bytes): Window {
    var cut := Max(0, |content| - TAG_LEN);
    Window(content[..cut], content[cut..])
  }

  /** The bytes a decryptor releases, whether or not the tag verifies in the end. */
  function Released(s: Suite, key: bytes, iv: bytes, content: bytes): bytes {
    Mask(s, key, iv, 0, Split(content).passed)
  }

  function Verdict(s: Suite, key: bytes, iv: bytes, content: bytes): Result<(), StreamError> {
    var w := Split(content);
    if |w.held| < TAG_LEN then Err(TooShort)
    else if w.held != s.tag(key, iv, w.passed) then Err(AuthenticationFailed)
    else Ok(())
  }

  function CheckLengths(key: bytes, iv: bytes): Result<(), StreamError> {
    if |key| != KEY_LEN then Err(BadKeyLength)
    else if |iv| != IV_LEN then Err(BadIvLength)
    else Ok(())
  }

  /** Decryption inverts encryption. */
  lemma OpenSeal(s: Suite, key: bytes, iv: bytes, plain: bytes)
    ensures Released(s, key, iv, Seal(s, key, iv, plain)) == plain
    ensures Verdict(s, key, iv, Seal(s, key, iv, plain)) == Ok(())
    ensures |Seal(s, key, iv, plain)| == |plain| + TAG_LEN
  {
    var text := Mask(s, key, iv, 0, plain);
    var w := Split(Seal(s, key, iv, plain));
    assert w.passed == text && w.held == s.tag(key, iv, text);
    MaskTwice(s, key, iv, 0, plain);
  }

  /** What the decryptors accept is exactly what the encryptor produces: content passes the
      check if and only if it is the sealing of the bytes it releases. */
  lemma AcceptedIffSealed(s: Suite, key: bytes, iv: bytes, content: bytes)
    ensures Verdict(s, key, iv, content) == Ok(()) <==> content == Seal(s, key, iv, Released(s, key, iv, content))
    ensures Verdict(s, key, iv, content) == Err(TooShort) <==> |content| < TAG_LEN
  {
    var w := Split(content);
    MaskTwice(s, key, iv, 0, w.passed);
    assert content == w.passed + w.held;
    var sealed := Seal(s, key, iv, Released(s, key, iv, content));
    assert sealed == w.passed + s.tag(key, iv, w.passed);
    if content == sealed {
      assert content[|w.passed|..] == w.held && sealed[|w.passed|..] == s.tag(key, iv, w.passed);
    }
  }

  /** Encryption, in terms of the keystream and the tag alone: one byte out for each byte in,
      exclusive-ored with the keystream byte at its position, and then the 16-byte tag of what
      came before it. */
  ghost predicate Encrypted(s: Suite, key: bytes, iv: bytes, plain: bytes, sealed: bytes) {
    && |sealed| == |plain| + 16
    && (forall i :: 0 <= i < |plain| ==> sealed[i] == plain[i] ^ s.keystream(key, iv, i))
    && sealed[|plain|..] == s.tag(key, iv, sealed[..|plain|])
  }

  lemma SealEncrypts(s: Suite, key: bytes, iv: bytes, plain: bytes)
    ensures Encrypted(s, key, iv, plain, Seal(s, key, iv, plain))
    ensures Mask(s, key, iv, 0, plain) == Seal(s, key, iv, plain)[..|plain|]
  {
    var text := Mask(s, key, iv, 0, plain);
    assert Seal(s, key, iv, plain)[..|plain|] == text;
  }

  /** Decryption likewise: all but the last 16 bytes are exclusive-ored with the keystream. */
  lemma ReleasedBytes(s: Suite, key: bytes, iv: bytes, content: bytes)
    ensures |Released(s, key, iv, content)| == Max(0, |content| - 16)
    ensures forall i :: 0 <= i < |content| - 16 ==>
              Released(s, key, iv, content)[i] == content[i] ^ s.keystream(key, iv, i)
  {
  }

  /** How a decryption ends. */
  lemma VerdictMeaning(s: Suite, key: bytes, iv: bytes, content: bytes)
    ensures Verdict(s, key, iv, content) ==
              if |content| < 16 then Err(TooShort)
              else if content[|content| - 16..] == s.tag(key, iv, content[..|content| - 16]) then Ok(())
              else Err(AuthenticationFailed)
  {
  }

  // ---- The held-back window ----

  /** One turn of the decryptors' loop: append a chunk, pass on all but 16 bytes. */
  function Push(w: Window, chunk: bytes): Window {
    var held := w.held + chunk;
    if |held| > TAG_LEN
    then Window(w.passed + held[..|held| - TAG_LEN], held[|held| - TAG_LEN..])
    else Window(w.passed, held)
  }

  lemma PushExtendsSplit(content: bytes, chunk: bytes)
    ensures Push(Split(content), chunk) == Split(content + chunk)
  {
    var w := Split(content);
    assert w.passed + w.held == content;
    assert w.passed + (w.held + chunk) == content + chunk;
    var p := Push(w, chunk);
    var q := Split(content + chunk);
    assert p.passed == q.passed;
    assert p.held == q.held;
  }

  function Feed(chunks: seq<bytes>): Window {
    if chunks == [] then Window([], [])
    else Push(Feed(chunks[..|chunks| - 1]), chunks[|chunks| - 1])
  }

  /** After any sequence of reads totalling m bytes, exactly the first max(0, m - 16)
      have gone to the cipher, in order, and the last min(m, 16) are held. */
  lemma {:induction false} FeedIsSplit(chunks: seq<bytes>)
    ensures Feed(chunks) == Split(Flatten(chunks))
  {
    if chunks != [] {
      var init, last := chunks[..|chunks| - 1], chunks[|chunks| - 1];
      assert chunks == init + [last];
      FeedIsSplit(init);
      FlattenSnoc(init, last);
      PushExtendsSplit(Flatten(init), last);
    }
  }

  lemma FeedSnoc(chunks: seq<bytes>, chunk: bytes)
    ensures Feed(chunks + [chunk]) == Push(Feed(chunks), chunk)
    ensures Flatten(chunks + [chunk]) == Flatten(chunks) + chunk
  {
    assert (chunks + [chunk])[..|chunks|] == chunks;
    FlattenSnoc(chunks, chunk);
  }

  // ---- Streams ----

  /** A chunk size of zero reads nothing, so only the empty content is seen. */
  function Seen(content: bytes, chunkSize: nat): bytes {
    if chunkSize == 0 then [] else content
  }

  method EncryptStream(s: Suite, key: bytes, iv: bytes, src: ByteSource, dst: ByteSink, chunkSize: nat)
    returns (r: Result<bytes, StreamError>)
    modifies src, dst
    ensures CheckLengths(key, iv).Err? ==>
              r == Err(CheckLengths(key, iv).error) && src.rest == old(src.rest) && dst.contents == old(dst.contents)
    ensures CheckLengths(key, iv).Ok? ==>
              && dst.contents == old(dst.contents) + Seal(s, key, iv, Seen(old(src.rest), chunkSize))
              && r == Ok(s.sha256(Mask(s, key, iv, 0, Seen(old(src.rest), chunkSize))))
    ensures |key| != 32 ==> r == Err(BadKeyLength)
    ensures |key| == 32 && |iv| != 12 ==> r == Err(BadIvLength)
    ensures |key| == 32 && |iv| == 12 ==>
              var plain := if chunkSize == 0 then [] else old(src.rest);
              var sealed := dst.contents[|old(dst.contents)|..];
              && old(dst.contents) <= dst.contents && Encrypted(s, key, iv, plain, sealed)
              && r == Ok(s.sha256(sealed[..|plain|]))
  {
    if CheckLengths(key, iv).Err? {
      return Err(CheckLengths(key, iv).error);
    }
    var enc := Context(key, iv, []);
    var hashed: bytes := [];
    ghost var done: bytes := [];
    while true
      invariant done + src.rest == old(src.rest)
      invariant chunkSize == 0 ==> done == []
      invariant enc == Context(key, iv, Mask(s, key, iv, 0, done))
      invariant hashed == enc.seen && dst.contents == old(dst.contents) + enc.seen
      decreases |src.rest|
    {
      ghost var left := src.rest;
      var chunk := src.Read(chunkSize);
      if chunk == [] {
        break;
      }
      var text := Mask(s, key, iv, |enc.seen|, chunk);
      MaskConcat(s, key, iv, 0, done, chunk);
      Associate(old(dst.contents), enc.seen, text, enc.seen + text);
      enc := enc.(seen := enc.seen + text);
      dst.Write(text);
      hashed := hashed + text;
      Associate(done, chunk, src.rest, left);
      done := done + chunk;
    }
    assert done == Seen(old(src.rest), chunkSize);
    dst.Write(s.tag(key, iv, enc.seen));
    r := Ok(s.sha256(hashed));
    SealEncrypts(s, key, iv, done);
    assert dst.contents[|old(dst.contents)|..] == Seal(s, key, iv, done);
  }

  /** The plaintext of everything a decryption context has been fed. */
  function Plain(s: Suite, dec: Context): bytes {
    Mask(s, dec.key, dec.iv, 0, dec.seen)
  }

  /** The loop body the two decryptors share: extend the held-back bytes, and decrypt
      all but the last TAG_LEN of them. */
  method Absorb(s: Suite, dec: Context, held: bytes, chunk: bytes) returns (dec': Context, held': bytes, pt: bytes)
    ensures Window(dec'.seen, held') == Push(Window(dec.seen, held), chunk)
    ensures dec'.key == dec.key && dec'.iv == dec.iv
    ensures Plain(s, dec') == Plain(s, dec) + pt
  {
    dec', held', pt := dec, held + chunk, [];
    if |held'| > TAG_LEN {
      var toProcess := held'[..|held'| - TAG_LEN];
      held' := held'[|held'| - TAG_LEN..];
      MaskConcat(s, dec.key, dec.iv, 0, dec.seen, toProcess);
      pt := Mask(s, dec.key, dec.iv, |dec.seen|, toProcess);
      dec' := dec.(seen := dec.seen + toProcess);
    }
  }

  /** Decryption into a sink: outcome and bytes written are those of the whole-message
      definitions, whatever the chunk size and however short the reads are. */
  method DecryptStream(s: Suite, key: bytes, iv: bytes, src: ByteSource, dst: ByteSink, chunkSize: nat)
    returns (r: Result<(), StreamError>)
    modifies src, dst
    ensures CheckLengths(key, iv).Err? ==>
              r == CheckLengths(key, iv) && src.rest == old(src.rest) && dst.contents == old(dst.contents)
    ensures CheckLengths(key, iv).Ok? ==>
              && dst.contents == old(dst.contents) + Released(s, key, iv, Seen(old(src.rest), chunkSize))
              && r == Verdict(s, key, iv, Seen(old(src.rest), chunkSize))
  {
    r := CheckLengths(key, iv);
    if r.Err? {
      return;
    }
    var dec := Context(key, iv, []);
    var held: bytes := [];
    ghost var taken: seq<bytes>, wrote: bytes := [], [];
    while true
      invariant Flatten(taken) + src.rest == old(src.rest)
      invariant chunkSize == 0 ==> taken == []
      invariant Window(dec.seen, held) == Feed(taken) && dec.key == key && dec.iv == iv
      invariant dst.contents == old(dst.contents) + wrote && wrote == Plain(s, dec)
      decreases |src.rest|
    {
      ghost var left := src.rest;
      var chunk := src.Read(chunkSize);
      if chunk == [] {
        break;
      }
      FeedSnoc(taken, chunk);
      Associate(Flatten(taken), chunk, src.rest, left);
      taken := taken + [chunk];
      var pt;
      dec, held, pt := Absorb(s, dec, held, chunk);
      if pt != [] {
        Associate(old(dst.contents), wrote, pt, wrote + pt);
        dst.Write(pt);
        wrote := wrote + pt;
      }
    }
    assert Flatten(taken) == Seen(old(src.rest), chunkSize) && Window(dec.seen, held) == Split(Flatten(taken)) by {
      FeedIsSplit(taken);
    }
    if |held| < TAG_LEN {
      return Err(TooShort);
    }
    if held != s.tag(key, iv, dec.seen) {
      return Err(AuthenticationFailed);
    }
  }

  /** The generator form, reading from a chunk iterator: what it yields before it ends
      or raises, and how it ends. */
  method DecryptStreamIter(s: Suite, key: bytes, iv: bytes, src: IteratorIO, chunkSize: nat)
    returns (yielded: seq<bytes>, r: Result<(), StreamError>)
    modifies src
    ensures CheckLengths(key, iv).Err? ==>
              r == CheckLengths(key, iv) && src.Rest() == old(src.Rest()) && yielded == []
    ensures CheckLengths(key, iv).Ok? ==>
              && Flatten(yielded) == Released(s, key, iv, Seen(old(src.Rest()), chunkSize))
              && r == Verdict(s, key, iv, Seen(old(src.Rest()), chunkSize))
    ensures [] !in yielded
  {
    yielded := [];
    r := CheckLengths(key, iv);
    if r.Err? {
      return;
    }
    var dec := Context(key, iv, []);
    var held: bytes := [];
    ghost var taken: seq<bytes> := [];
    while true
      invariant Flatten(taken) + src.Rest() == old(src.Rest())
      invariant chunkSize == 0 ==> taken == []
      invariant Window(dec.seen, held) == Feed(taken) && dec.key == key && dec.iv == iv
      invariant Flatten(yielded) == Plain(s, dec)
      invariant [] !in yielded
      decreases |src.Rest()|
    {
      ghost var left := src.Rest();
      var chunk := src.Read(chunkSize);
      if chunk == [] {
        break;
      }
      FeedSnoc(taken, chunk);
      Associate(Flatten(taken), chunk, src.Rest(), left);
      taken := taken + [chunk];
      var pt;
      dec, held, pt := Absorb(s, dec, held, chunk);
      if pt != [] {
        FlattenSnoc(yielded, pt);
        yielded := yielded + [pt];
      }
    }
    assert Flatten(taken) == Seen(old(src.Rest()), chunkSize) && Window(dec.seen, held) == Split(Flatten(taken)) by {
      FeedIsSplit(taken);
    }
    if |held| < TAG_LEN {
      return yielded, Err(TooShort);
    }
    if held != s.tag(key, iv, dec.seen) {
      return yielded, Err(AuthenticationFailed);
    }
  }

  /** Encrypting with one chunk size and decrypting with others, from a file or from any
      slicing of the ciphertext, gives back the plaintext on both paths. */
  method RoundTrip(s: Suite, key: bytes, iv: bytes, plain: bytes, sealChunk: nat, openChunk: nat, iterChunk: nat,
      slice: bytes -> seq<bytes>)
    returns (written: bytes, yielded: seq<bytes>)
    requires CheckLengths(key, iv).Ok? && sealChunk > 0 && openChunk > 0 && iterChunk > 0
    requires forall b :: Flatten(slice(b)) == b
    ensures written == plain && Flatten(yielded) == plain
  {
    var src := new ByteSource(plain);
    var sealed := new ByteSink();
    var _ := EncryptStream(s, key, iv, src, sealed, sealChunk);
    assert sealed.contents == Seal(s, key, iv, plain);
    OpenSeal(s, key, iv, plain);
    var again := new ByteSource(sealed.contents);
    var out := new ByteSink();
    var r := DecryptStream(s, key, iv, again, out, openChunk);
    var io := new IteratorIO(slice(sealed.contents));
    var q;
    yielded, q := DecryptStreamIter(s, key, iv, io, iterChunk);
    assert r == Ok(()) && q == Ok(());
    written := out.contents;
  }
}
