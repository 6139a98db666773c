/** The resumable upload handler (backend/app/tus/handler.py): HEAD, PATCH with its append
    loop, and the client loop of the tus 1.0.0 core protocol. */
module Tus {
  import opened Bytes
  import opened Streams
  import opened Model

  // ---- Reference definition of one PATCH on one file ----

  /** Bytes of the body that are kept: the part that fits, if the offset is right. */
  function KeptPart(current: bytes, size: nat, offset: int, body: bytes): bytes {
    if offset != |current| then []
    else body[..Min(|body|, Max(0, size - |current|))]
  }

  function PatchFile(current: bytes, size: nat, offset: int, body: bytes): bytes {
    current + KeptPart(current, size, offset, body)
  }

  predicate Accepts(current: bytes, size: nat, offset: int, body: bytes) {
    offset == |current| && |current| + |body| <= size
  }

  // ---- A whole upload of one file ----

  datatype Patch = Patch(offset: int, body: bytes)

  function Upload(current: bytes, size: nat, patches: seq<Patch>): bytes {
    if patches == [] then current
    else
      var before := Upload(current, size, patches[..|patches| - 1]);
      var p := patches[|patches| - 1];
      PatchFile(before, size, p.offset, p.body)
  }

  function KeptParts(current: bytes, size: nat, patches: seq<Patch>): seq<bytes> {
    if patches == [] then []
    else
      var init := patches[..|patches| - 1];
      var p := patches[|patches| - 1];
      KeptParts(current, size, init) + [KeptPart(Upload(current, size, init), size, p.offset, p.body)]
  }

  /** Over any run of PATCH requests, right or wrong: the staged file only grows by
      appending, is the concatenation in order of the parts kept, and never outgrows its
      declared size. */
  lemma {:induction false} UploadOnlyAppends(current: bytes, size: nat, patches: seq<Patch>)
    requires |current| <= size
    ensures Upload(current, size, patches) == current + Flatten(KeptParts(current, size, patches))
    ensures |Upload(current, size, patches)| <= size
  {
    if patches != [] {
      var init, p := patches[..|patches| - 1], patches[|patches| - 1];
      UploadOnlyAppends(current, size, init);
      var before := Upload(current, size, init);
      FlattenSnoc(KeptParts(current, size, init), KeptPart(before, size, p.offset, p.body));
    }
  }

  lemma {:induction false} UploadMonotone(current: bytes, size: nat, patches: seq<Patch>, more: seq<Patch>)
    requires |current| <= size
    ensures Upload(current, size, patches) <= Upload(current, size, patches + more)
  {
    if more == [] {
      assert patches + more == patches;
    } else {
      var init, p := more[..|more| - 1], more[|more| - 1];
      UploadMonotone(current, size, patches, init);
      assert (patches + more)[..|patches + more| - 1] == patches + init;
    }
  }

  // ---- The handler ----

  datatype UploadState = UploadState(currentOffset: nat, declaredLength: nat, complete: bool)

  datatype PatchResult = Accepted(state: UploadState, pushed: bool) | Rejected(code: nat)

  /** No staged file of a known transfer exceeds its declared size. */
  ghost predicate WithinDeclared(transfers: Transfers, staging: Staging) {
    forall tid, f :: tid in transfers && f in transfers[tid].files ==> StagedSize(staging, (tid, f.id)) <= f.size
  }

  ghost predicate UploadInvariant(transfers: Transfers, staging: Staging) {
    && WithinDeclared(transfers, staging)
    && forall tid :: tid in transfers ==> DistinctFiles(transfers[tid].files)
  }

  predicate AllComplete(files: seq<FileRow>, staging: Staging, tid: string) {
    forall f :: f in files ==> StagedSize(staging, (tid, f.id)) == f.size
  }

  /** Appends the source to the staged file, creating it if need be. Up to one chunk more
      than the remaining room is written, so that the caller can see the excess. */
  method AppendStream(w: World, key: (string, string), src: ByteSource, maxTotal: nat) returns (written: nat)
    requires StagedSize(w.staging, key) <= maxTotal
    modifies w`staging, src
    ensures written == Min(|old(src.rest)|, maxTotal - StagedSize(old(w.staging), key) + CHUNK)
    ensures w.staging == old(w.staging)[key := StagedContent(old(w.staging), key) + old(src.rest)[..written]]
  {
    var currentSize := StagedSize(w.staging, key);
    var maxBytes := maxTotal - currentSize + CHUNK;
    ghost var content, body := StagedContent(w.staging, key), src.rest;
    w.staging := w.staging[key := StagedContent(w.staging, key)];
    written := 0;
    ghost var done: bytes := [];
    while true
      invariant done + src.rest == body && written == |done| <= maxBytes
      invariant key in w.staging && w.staging[key] == content + done
      invariant w.staging == old(w.staging)[key := w.staging[key]]
      decreases |src.rest|
    {
      ghost var left := src.rest;
      var data := src.Read(CHUNK);
      if data == [] {
        break;
      }
      Associate(done, data, src.rest, left);
      if written + |data| > maxBytes {
        var part := data[..maxBytes - written];
        Associate(content, done, part, done + part);
        w.staging := w.staging[key := w.staging[key] + part];
        written := maxBytes;
        assert done + part == body[..maxBytes];
        return;
      }
      Associate(content, done, data, done + data);
      w.staging := w.staging[key := w.staging[key] + data];
      written := written + |data|;
      done := done + data;
    }
    assert done == body[..written];
  }

  /** The section of a PATCH that runs without giving way to another handler: append the
      body and, if that overran the declared size, cut back to it. The offset returned is
      past `size` exactly when the body did not fit. */
  method AppendBody(w: World, key: (string, string), size: nat, body: bytes) returns (newOffset: nat)
    requires StagedSize(w.staging, key) <= size
    modifies w`staging
    ensures var content := StagedContent(old(w.staging), key);
            w.staging == old(w.staging)[key := PatchFile(content, size, |content|, body)]
    ensures newOffset == Min(StagedSize(old(w.staging), key) + |body|, size + CHUNK)
  {
    ghost var content := StagedContent(w.staging, key);
    var current := StagedSize(w.staging, key);
    var src := new ByteSource(body);
    var written := AppendStream(w, key, src, size);
    newOffset := current + written;
    if newOffset > size {
      assert (content + body[..written])[..size] == PatchFile(content, size, |content|, body);
      w.staging := w.staging[key := w.staging[key][..size]];
    } else {
      assert body[..written] == body;
    }
  }

  method AllFilesComplete(w: World, files: seq<FileRow>, tid: string) returns (r: bool)
    ensures r == AllComplete(files, w.staging, tid)
    ensures r <==> forall f :: f in files ==>
              (if (tid, f.id) in w.staging then |w.staging[(tid, f.id)]| else 0) == f.size
  {
    for i := 0 to |files|
      invariant AllComplete(files[..i], w.staging, tid)
    {
      if StagedSize(w.staging, (tid, files[i].id)) != files[i].size {
        return false;
      }
    }
    return true;
  }

  /** The status code a PATCH is refused with before anything is written. */
  function EarlyRejection(transfers: Transfers, staging: Staging, tid: string, fid: string, offset: int): Option<nat> {
    if tid !in transfers then Some(404)
    else if FindFile(transfers[tid].files, fid).None? then Some(404)
    else if transfers[tid].status != Uploading then Some(409)
    else if offset != StagedSize(staging, (tid, fid)) then Some(409)
    else None
  }

  /** One PATCH. An early refusal changes nothing. Otherwise the staged file becomes what
      PatchFile says; the request is refused with 413 exactly when the body does not fit,
      and a job is queued exactly when the request is accepted and leaves every file of
      the transfer complete. */
  method HandlePatch(w: World, tid: string, fid: string, offset: int, body: bytes) returns (r: PatchResult)
    requires UploadInvariant(w.transfers, w.staging)
    modifies w`staging, w`queue
    ensures UploadInvariant(w.transfers, w.staging)
    ensures EarlyRejection(w.transfers, old(w.staging), tid, fid, offset).Some? ==>
              && r == Rejected(EarlyRejection(w.transfers, old(w.staging), tid, fid, offset).value)
              && w.staging == old(w.staging) && w.queue == old(w.queue)
    ensures EarlyRejection(w.transfers, old(w.staging), tid, fid, offset).None? ==>
              var size := FindFile(w.transfers[tid].files, fid).value.size;
              var current := StagedContent(old(w.staging), (tid, fid));
              && w.staging == old(w.staging)[(tid, fid) := PatchFile(current, size, offset, body)]
              && (Accepts(current, size, offset, body) ==>
                    var total := |current| + |body|;
                    r == Accepted(UploadState(total, size, total == size),
                                  total == size && AllComplete(w.transfers[tid].files, w.staging, tid)))
              && (!Accepts(current, size, offset, body) ==> r == Rejected(413))
    ensures w.queue == if r.Accepted? && r.pushed then [tid] + old(w.queue) else old(w.queue)
    ensures var known := tid in w.transfers && FindFile(w.transfers[tid].files, fid).Some?;
            var staged := if (tid, fid) in old(w.staging) then |old(w.staging)[(tid, fid)]| else 0;
            var open := known && w.transfers[tid].status == Uploading && offset == staged;
            var fits := open && staged + |body| <= FindFile(w.transfers[tid].files, fid).value.size;
            && (r == Rejected(404) <==> !known)
            && (r == Rejected(409) <==> known && !open)
            && (r == Rejected(413) <==> open && !fits)
            && (r.Accepted? <==> fits)
  {
    if tid !in w.transfers {
      return Rejected(404);
    }
    var transfer := w.transfers[tid];
    var tf := FindFile(transfer.files, fid);
    if tf.None? {
      return Rejected(404);
    }
    if transfer.status != Uploading {
      return Rejected(409);
    }
    var key, size := (tid, fid), tf.value.size;
    if offset != StagedSize(w.staging, key) {
      return Rejected(409);
    }
    KeepsInvariant(w.transfers, w.staging, tid, tf.value, PatchFile(StagedContent(w.staging, key), size, offset, body));
    var newOffset := AppendBody(w, key, size, body);
    if newOffset > size {
      return Rejected(413);
    }
    var pushed := false;
    if newOffset == size {
      pushed := AllFilesComplete(w, transfer.files, tid);
      if pushed {
        w.queue := [tid] + w.queue;
      }
    }
    return Accepted(UploadState(newOffset, size, newOffset == size), pushed);
  }

  lemma KeepsInvariant(transfers: Transfers, staging: Staging, tid: string, f: FileRow, content: bytes)
    requires UploadInvariant(transfers, staging)
    requires tid in transfers && f in transfers[tid].files && |content| <= f.size
    ensures UploadInvariant(transfers, staging[(tid, f.id) := content])
  {
    forall t, g | t in transfers && g in transfers[t].files
      ensures StagedSize(staging[(tid, f.id) := content], (t, g.id)) <= g.size
    {
      if (t, g.id) == (tid, f.id) {
        var files := transfers[tid].files;
        var i :| 0 <= i < |files| && files[i] == f;
        var j :| 0 <= j < |files| && files[j] == g;
        assert DistinctFiles(files);
        assert i == j;
      }
    }
  }

  method HandleHead(w: World, tid: string, fid: string) returns (r: Option<UploadState>)
    ensures r.None? <==> tid !in w.transfers || FindFile(w.transfers[tid].files, fid).None?
    ensures r.Some? ==>
              var size := FindFile(w.transfers[tid].files, fid).value.size;
              var current := StagedSize(w.staging, (tid, fid));
              r.value == UploadState(current, size, current == size && size > 0)
  {
    if tid !in w.transfers {
      return None;
    }
    var tf := FindFile(w.transfers[tid].files, fid);
    if tf.None? {
      return None;
    }
    var current := StagedSize(w.staging, (tid, fid));
    return Some(UploadState(current, tf.value.size, current == tf.value.size && tf.value.size > 0));
  }

  /** One turn of the client: ask for the offset, send a piece of the source from there. */
  method SendPiece(w: World, tid: string, fid: string, source: bytes, offset: nat, n: nat)
    requires UploadInvariant(w.transfers, w.staging)
    requires tid in w.transfers && w.transfers[tid].status == Uploading
    requires FindFile(w.transfers[tid].files, fid).Some? && FindFile(w.transfers[tid].files, fid).value.size == |source|
    requires n > 0 && offset + n <= |source| && StagedContent(w.staging, (tid, fid)) == source[..offset]
    modifies w`staging, w`queue
    ensures UploadInvariant(w.transfers, w.staging)
    ensures w.staging == old(w.staging)[(tid, fid) := source[..offset + n]]
    ensures w.queue == if offset + n == |source| && AllComplete(w.transfers[tid].files, w.staging, tid)
                       then [tid] + old(w.queue) else old(w.queue)
  {
    var piece := source[offset..offset + n];
    assert PatchFile(source[..offset], |source|, offset, piece) == source[..offset + n];
    var _ := HandlePatch(w, tid, fid, offset, piece);
  }

  /** The turns of the client until everything is sent. */
  method SendRest(w: World, tid: string, fid: string, source: bytes)
    requires UploadInvariant(w.transfers, w.staging)
    requires tid in w.transfers && w.transfers[tid].status == Uploading
    requires FindFile(w.transfers[tid].files, fid).Some? && FindFile(w.transfers[tid].files, fid).value.size == |source|
    requires StagedContent(w.staging, (tid, fid)) < source
    modifies w`staging, w`queue
    ensures UploadInvariant(w.transfers, w.staging)
    ensures w.staging == old(w.staging)[(tid, fid) := source]
    ensures w.queue == if AllComplete(w.transfers[tid].files, w.staging, tid)
                       then [tid] + old(w.queue) else old(w.queue)
    decreases |source| - StagedSize(w.staging, (tid, fid))
  {
    var head := HandleHead(w, tid, fid);
    var offset := head.value.currentOffset;
    assert StagedContent(w.staging, (tid, fid)) == source[..offset];
    assert 1 <= |source| - offset;
    var n: nat :| 1 <= n <= |source| - offset;
    SendPiece(w, tid, fid, source, offset, n);
    if offset + n < |source| {
      SendRest(w, tid, fid, source);
    } else {
      assert source[..offset + n] == source;
    }
  }

  /** A client that asks for the offset and sends some non-empty piece from there, over and
      over, always finishes, with its source staged; resuming from any part staged by
      earlier attempts works the same way, and when all of it is staged already nothing is
      sent. No other file's staging is touched, and a job has been queued if this completed
      the transfer. */
  method UploadFile(w: World, tid: string, fid: string, source: bytes)
    requires UploadInvariant(w.transfers, w.staging)
    requires tid in w.transfers && w.transfers[tid].status == Uploading
    requires FindFile(w.transfers[tid].files, fid).Some? && FindFile(w.transfers[tid].files, fid).value.size == |source|
    requires StagedContent(w.staging, (tid, fid)) <= source
    modifies w`staging, w`queue
    ensures UploadInvariant(w.transfers, w.staging)
    ensures StagedContent(w.staging, (tid, fid)) == source
    ensures if StagedContent(old(w.staging), (tid, fid)) == source
            then w.staging == old(w.staging) && w.queue == old(w.queue)
            else
              && w.staging == old(w.staging)[(tid, fid) := source]
              && w.queue == if AllComplete(w.transfers[tid].files, w.staging, tid)
                            then [tid] + old(w.queue) else old(w.queue)
  {
    var head := HandleHead(w, tid, fid);
    if head.value.currentOffset < |source| {
      SendRest(w, tid, fid, source);
    }
  }
}
