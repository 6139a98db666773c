/** The download handler (backend/app/routers/public.py:455-546). */
module Download {
  import opened Bytes
  import opened Storage
  import opened StreamCipher
  import opened Model
  import opened EncryptJob
  import KeyWrap
  import Envelope

  datatype DownloadError = NotFound | Gone | KeyError(error: Envelope.EnvelopeError) | ObjectMissing

  /** What the client receives: the announced length, the body chunks, and how the stream ended. */
  datatype Response = Response(contentLength: nat, body: seq<bytes>, ended: Result<(), StreamError>)

  /** The refusals of the ready-transfer lookup, in the order the code makes them. */
  function LookupRefusal(transfers: Transfers, tid: string, fid: string, now: int): Option<DownloadError> {
    if tid !in transfers then Some(NotFound)
    else
      var t := transfers[tid];
      if t.status != Ready then Some(NotFound)
      else if t.expiresAt <= now then Some(Gone)
      else if t.wrappedKey.None? then Some(NotFound)
      else if FindFile(t.files, fid).None? then Some(NotFound)
      else None
  }

  /** The file can be recovered: the transfer's stored key opens to `fileKey`, under which the
      file's object is the sealing of `plain`. */
  ghost predicate Recoverable(s: Suite, c: KeyWrap.Cipher, current: bytes, previous: Option<bytes>,
      t: Transfer, objects: Objects, tid: string, f: FileRow, fileKey: bytes, plain: bytes)
  {
    && t.wrappedKey.Some? && |fileKey| == KEY_LEN
    && Envelope.UnwrapKey(c, current, t.wrappedKey.value, previous) == Ok(fileKey)
    && StoredFile(s, objects, tid, f, fileKey, plain)
  }

  /** Streams one file back. `slices` is whatever way the object store slices an object. A
      recoverable file arrives byte for byte, with its length announced. */
  method DownloadFile(s: Suite, c: KeyWrap.Cipher, w: World, tid: string, fid: string,
      current: bytes, previous: Option<bytes>, now: int, slices: bytes -> seq<bytes>)
    returns (r: Result<Response, DownloadError>)
    requires forall b :: Flatten(slices(b)) == b
    ensures LookupRefusal(w.transfers, tid, fid, now).Some? ==>
              r == Err(LookupRefusal(w.transfers, tid, fid, now).value)
    ensures tid !in w.transfers || w.transfers[tid].status != Ready ==> r == Err(NotFound)
    ensures r == Err(Gone) <==>
              tid in w.transfers && w.transfers[tid].status == Ready && w.transfers[tid].expiresAt <= now
    ensures tid in w.transfers && w.transfers[tid].status == Ready && now < w.transfers[tid].expiresAt
              && (w.transfers[tid].wrappedKey.None? || forall f :: f in w.transfers[tid].files ==> f.id != fid) ==>
              r == Err(NotFound)
    ensures forall fileKey, plain ::
              LookupRefusal(w.transfers, tid, fid, now).None?
                && Recoverable(s, c, current, previous, w.transfers[tid], w.objects, tid,
                               FindFile(w.transfers[tid].files, fid).value, fileKey, plain) ==>
              && r.Ok? && r.value.ended == Ok(()) && Flatten(r.value.body) == plain
              && r.value.contentLength == |plain|
    ensures LookupRefusal(w.transfers, tid, fid, now).None? ==>
              match Envelope.UnwrapKey(c, current, w.transfers[tid].wrappedKey.value, previous)
              case Err(e) => r == Err(KeyError(e))
              case Ok(_) => ObjectKey(tid, fid) !in w.objects ==> r == Err(ObjectMissing)
  {
    var refusal := LookupRefusal(w.transfers, tid, fid, now);
    if refusal.Some? {
      return Err(refusal.value);
    }
    var t := w.transfers[tid];
    var tf := FindFile(t.files, fid).value;
    var fileKey := Envelope.UnwrapKey(c, current, t.wrappedKey.value, previous);
    if fileKey.Err? {
      return Err(KeyError(fileKey.error));
    }
    if ObjectKey(tid, fid) !in w.objects {
      return Err(ObjectMissing);
    }
    var io := new IteratorIO(slices(w.objects[ObjectKey(tid, fid)]));
    var body, ended := DecryptStreamIter(s, fileKey.value, tf.iv, io, CHUNK);
    forall k, plain | Recoverable(s, c, current, previous, t, w.objects, tid, tf, k, plain)
      ensures ended == Ok(()) && Flatten(body) == plain && tf.size == |plain|
    {
      OpenSeal(s, k, tf.iv, plain);
    }
    return Ok(Response(tf.size, body, ended));
  }
}
