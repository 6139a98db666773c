/** Wrapping of per-transfer file keys, with the rotation window's fallback to the
    previous master key (backend/app/crypto/envelope.py). */
module Envelope {
  import opened Bytes
  import opened KeyWrap

  const WRAPPED_LEN := KEY_LEN + 8

  datatype EnvelopeError = BadLength | UnwrapFailed

  function WrapKey(c: Cipher, master: bytes, fileKey: bytes): Result<bytes, EnvelopeError> {
    if |master| != KEY_LEN || |fileKey| != KEY_LEN then Err(BadLength)
    else Ok(Wrap(c, master, fileKey))
  }

  function UnwrapKey(c: Cipher, master: bytes, wrapped: bytes, previous: Option<bytes>): Result<bytes, EnvelopeError> {
    if |master| != KEY_LEN then Err(BadLength)
    else if previous.Some? && |previous.value| != KEY_LEN then Err(BadLength)
    else if |wrapped| != WRAPPED_LEN then Err(BadLength)
    else match Unwrap(c, master, wrapped)
      case Some(fileKey) => Ok(fileKey)
      case None =>
        if previous.None? then Err(UnwrapFailed)
        else match Unwrap(c, previous.value, wrapped)
          case Some(fileKey) => Ok(fileKey)
          case None => Err(UnwrapFailed)
  }

  /** Which refusals there are, and when. */
  lemma Refusals(c: Cipher, master: bytes, data: bytes, previous: Option<bytes>)
    ensures WrapKey(c, master, data).Err? <==> |master| != 32 || |data| != 32
    ensures WrapKey(c, master, data).Err? ==> WrapKey(c, master, data) == Err(BadLength)
    ensures UnwrapKey(c, master, data, previous) == Err(BadLength) <==>
              |master| != 32 || (previous.Some? && |previous.value| != 32) || |data| != 40
  {
  }

  /** A pair of well-formed master keys: the current one and, inside a rotation window,
      the previous one. */
  predicate GoodKeys(current: bytes, previous: Option<bytes>) {
    |current| == KEY_LEN && (previous.Some? ==> |previous.value| == KEY_LEN)
  }

  predicate WrappedBy(c: Cipher, master: bytes, blob: bytes, fileKey: bytes) {
    |fileKey| == KEY_LEN && blob == Wrap(c, master, fileKey)
  }

  /** No file key wraps to this blob under `master`. */
  ghost predicate ForeignTo(c: Cipher, master: bytes, blob: bytes) {
    forall k :: !WrappedBy(c, master, blob, k)
  }

  lemma UnwrapsTo(c: Cipher, master: bytes, blob: bytes, fileKey: bytes)
    ensures |blob| == WRAPPED_LEN && Unwrap(c, master, blob) == Some(fileKey) <==> WrappedBy(c, master, blob, fileKey)
  {
    UnwrapIffWrap(c, master, blob, fileKey);
    if Wrappable(fileKey) {
      WrapLength(c, master, fileKey);
    }
  }

  /** What unwrapping means, said in terms of wrapping only: the blob is the current
      key's wrapping of the result or, failing any wrapping under the current key, the
      previous key's. */
  lemma UnwrapKeyMeaning(c: Cipher, current: bytes, previous: Option<bytes>, blob: bytes, fileKey: bytes)
    requires GoodKeys(current, previous)
    ensures UnwrapKey(c, current, blob, previous) == Ok(fileKey) <==>
              || WrappedBy(c, current, blob, fileKey)
              || (previous.Some? && ForeignTo(c, current, blob) && WrappedBy(c, previous.value, blob, fileKey))
  {
    UnwrapsTo(c, current, blob, fileKey);
    if previous.Some? {
      UnwrapsTo(c, previous.value, blob, fileKey);
    }
    match Unwrap(c, current, blob)
    case Some(k) =>
      UnwrapsTo(c, current, blob, k);
    case None =>
      forall k ensures !WrappedBy(c, current, blob, k) {
        UnwrapsTo(c, current, blob, k);
      }
  }

  /** The fallback recovers a key wrapped before the rotation exactly when the current
      key does not unwrap the same blob to something else. */
  lemma FallbackRecovers(c: Cipher, current: bytes, previous: bytes, fileKey: bytes)
    requires |current| == KEY_LEN && |previous| == KEY_LEN && |fileKey| == KEY_LEN
    ensures var blob := Wrap(c, previous, fileKey);
            UnwrapKey(c, current, blob, Some(previous)) == Ok(fileKey) <==>
              forall k :: WrappedBy(c, current, blob, k) ==> k == fileKey
  {
    var blob := Wrap(c, previous, fileKey);
    UnwrapKeyMeaning(c, current, Some(previous), blob, fileKey);
    assert WrappedBy(c, previous, blob, fileKey);
    forall k | WrappedBy(c, current, blob, k)
      ensures UnwrapKey(c, current, blob, Some(previous)) == Ok(k)
    {
      UnwrapKeyMeaning(c, current, Some(previous), blob, k);
    }
  }

  /** What is wrapped under the previous key needs the fallback: once the previous key has been
      removed it opens exactly if it is by accident a wrapping under the current key too. */
  lemma OldBlobWithoutFallback(c: Cipher, current: bytes, previous: bytes, fileKey: bytes)
    requires |current| == KEY_LEN && |previous| == KEY_LEN && |fileKey| == KEY_LEN
    ensures UnwrapKey(c, current, Wrap(c, previous, fileKey), None).Ok? <==>
              !ForeignTo(c, current, Wrap(c, previous, fileKey))
  {
    var blob := Wrap(c, previous, fileKey);
    forall k ensures UnwrapKey(c, current, blob, None) == Ok(k) <==> WrappedBy(c, current, blob, k) {
      UnwrapKeyMeaning(c, current, None, blob, k);
    }
    if UnwrapKey(c, current, blob, None).Ok? {
      assert WrappedBy(c, current, blob, UnwrapKey(c, current, blob, None).value);
    }
  }

  /** The rotation step on one blob. */
  function Rewrap(c: Cipher, current: bytes, previous: Option<bytes>, blob: bytes): Result<bytes, EnvelopeError> {
    match UnwrapKey(c, current, blob, previous)
    case Ok(fileKey) => WrapKey(c, current, fileKey)
    case Err(e) => Err(e)
  }

  lemma UnwrapKeyLength(c: Cipher, current: bytes, previous: Option<bytes>, blob: bytes)
    ensures UnwrapKey(c, current, blob, previous).Ok? ==> |UnwrapKey(c, current, blob, previous).value| == KEY_LEN
  {
    if UnwrapKey(c, current, blob, previous).Ok? {
      UnwrapKeyMeaning(c, current, previous, blob, UnwrapKey(c, current, blob, previous).value);
    }
  }

  /** Rewrapping keeps the file key, needs only the current key afterwards, and changes
      nothing when repeated. */
  lemma RewrapKeepsFileKey(c: Cipher, current: bytes, previous: Option<bytes>, blob: bytes, fileKey: bytes)
    requires UnwrapKey(c, current, blob, previous) == Ok(fileKey)
    ensures Rewrap(c, current, previous, blob).Ok?
    ensures var after := Rewrap(c, current, previous, blob).value;
            && (forall p: Option<bytes> :: GoodKeys(current, p) ==> UnwrapKey(c, current, after, p) == Ok(fileKey))
            && Rewrap(c, current, previous, after) == Ok(after)
  {
    UnwrapKeyLength(c, current, previous, blob);
    var after := Wrap(c, current, fileKey);
    UnwrapsTo(c, current, after, fileKey);
    assert WrappedBy(c, current, after, fileKey);
    assert forall p: Option<bytes> :: GoodKeys(current, p) ==> UnwrapKey(c, current, after, p) == Ok(fileKey);
  }

  /** A blob already under the current key is left byte for byte. */
  lemma RewrapIsIdentityOnCurrent(c: Cipher, current: bytes, previous: Option<bytes>, blob: bytes)
    requires GoodKeys(current, previous)
    requires UnwrapKey(c, current, blob, None).Ok?
    ensures Rewrap(c, current, previous, blob) == Ok(blob)
  {
    var fileKey := UnwrapKey(c, current, blob, None).value;
    UnwrapKeyMeaning(c, current, None, blob, fileKey);
    UnwrapKeyMeaning(c, current, previous, blob, fileKey);
  }
}
