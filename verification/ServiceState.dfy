/** What holds of the service's stores at every moment of every run, and that each kind of
    action keeps it. The record of actions and answers is part of the state, so that the
    invariant can say what the stores hold. */
module ServiceState {
  import opened Bytes
  import opened Storage
  import opened StreamCipher
  import opened Model
  import opened Record
  import Download
  import EncryptJob
  import Envelope
  import Handlers
  import KeyWrap
  import Lifecycle
  import Rotation
  import Tus

  // ---- Identifiers ----

  datatype RawIds = Ids(number: string -> nat, name: nat -> string)

  /** Transfer ids: numbers to the database, which sorts by them, and plain names elsewhere. */
  type Ids = ids: RawIds | ProperIds(ids) ghost witness Ids(s => |s|, (n: nat) => seq(n, _ => 'a'))

  ghost predicate ProperIds(ids: RawIds) {
    forall n :: ids.number(ids.name(n)) == n && PlainId(ids.name(n))
  }

  predicate IsId(ids: Ids, tid: string) {
    ids.name(ids.number(tid)) == tid
  }

  // ---- The invariant ----

  /** Rows are well formed, and every staging file belongs to one. */
  ghost predicate RowsOk(ids: Ids, transfers: Transfers, staging: Staging) {
    && (forall tid :: tid in transfers ==> IsId(ids, tid))
    && Tus.UploadInvariant(transfers, staging)
    && Lifecycle.Inv(transfers)
    && (forall key :: key in staging ==> key.0 in transfers)
  }

  /** The staging directory holds what the record says. */
  ghost predicate StagedOk(transfers: Transfers, staging: Staging, log: Log) {
    && (forall tid, f :: tid in transfers && f in transfers[tid].files ==>
          StagedContent(staging, (tid, f.id)) == Staged(log, tid, f.id, f.size))
    && (forall tid, fid, size :: tid !in transfers ==> Staged(log, tid, fid, size) == [])
  }

  /** The master keys in use and how far the current rewrap request has come. The worker is
      restarted after the API, and wraps under the old key until then. */
  datatype Keys = Keys(
    current: bytes,                     // the API's
    previous: Option<bytes>,
    worker: bytes,
    lastId: Option<Rotation.Id>,        // the cursor of the rewrap request under way
    sound: bool,                        // that request began with the worker on the current key
    finished: bool)                     // such a request has ended in this window

  /** All the master keys and file keys a run may use. */
  datatype KeySpace = KeySpace(masters: iset<bytes>, fileKeys: iset<bytes>)

  /** No wrapping of a file key under one master key opens to another key under another. */
  ghost predicate Separate(c: KeyWrap.Cipher, space: KeySpace) {
    && (forall m :: m in space.masters ==> |m| == KEY_LEN)
    && (forall k :: k in space.fileKeys ==> |k| == KEY_LEN)
    && (forall m, n, k, k' :: m in space.masters && n in space.masters && k in space.fileKeys ==>
          Envelope.WrappedBy(c, n, KeyWrap.Wrap(c, m, k), k') ==> k' == k)
  }

  predicate Passed(keys: Keys, id: Rotation.Id) {
    keys.finished || (keys.sound && keys.lastId.Some? && id <= keys.lastId.value)
  }

  /** The blob opens to the file key it was made from, and without the previous master key
      once the rewrap loop has passed its row. */
  predicate BlobOk(c: KeyWrap.Cipher, keys: Keys, id: Rotation.Id, blob: bytes, fileKey: bytes) {
    && Envelope.UnwrapKey(c, keys.current, blob, keys.previous) == Ok(fileKey)
    && (Passed(keys, id) ==> Envelope.UnwrapKey(c, keys.current, blob, None) == Ok(fileKey))
  }

  /** `origin` remembers the file key of each transfer, for the statement only. */
  ghost predicate KeysOk(c: KeyWrap.Cipher, ids: Ids, space: KeySpace, transfers: Transfers, keys: Keys,
      origin: map<string, bytes>)
  {
    && keys.current in space.masters
    && (keys.previous.Some? ==> keys.previous.value in space.masters && keys.previous.value != keys.current)
    && (keys.worker == keys.current || (keys.previous == Some(keys.worker) && !keys.sound && !keys.finished))
    && forall tid :: tid in transfers ==> RowKeyOk(c, ids, space, keys, origin, tid, transfers[tid].wrappedKey)
  }

  ghost predicate RowKeyOk(c: KeyWrap.Cipher, ids: Ids, space: KeySpace, keys: Keys, origin: map<string, bytes>,
      tid: string, wrappedKey: Option<bytes>)
  {
    wrappedKey.Some? ==>
      && tid in origin && origin[tid] in space.fileKeys
      && BlobOk(c, keys, ids.number(tid), wrappedKey.value, origin[tid])
  }

  /** A transfer that can be downloaded: ready, and not past its expiry date. */
  predicate Served(t: Transfer, clock: int) {
    t.status == Ready && clock <= t.expiresAt
  }

  /** Every object of the transfer is the sealing of the bytes kept for it, except those that a
      delete without a commit has removed. */
  ghost predicate ObjectsOk(s: Suite, objects: Objects, tid: string, files: seq<FileRow>,
      origin: map<string, bytes>, log: Log)
  {
    && tid in origin
    && forall f :: f in files ==>
         if Lost(log, tid, f.id) then ObjectKey(tid, f.id) !in objects
         else EncryptJob.StoredFile(s, objects, tid, f, origin[tid], Kept(log, tid, f.id, f.size))
  }

  ghost predicate StoredOk(s: Suite, transfers: Transfers, objects: Objects, clock: int,
      origin: map<string, bytes>, log: Log)
  {
    forall tid :: tid in transfers && Served(transfers[tid], clock) ==>
      ObjectsOk(s, objects, tid, transfers[tid].files, origin, log)
  }

  predicate Audited(audit: seq<AuditEvent>, tid: string) {
    UploadComplete(tid) in audit || UploadFailed(tid) in audit
  }

  /** The audit log has the worker's verdicts; a transfer with one has left `uploading`, and
      the staged bytes it has are those of files that shredding could not unlink. */
  ghost predicate AuditOk(transfers: Transfers, audit: seq<AuditEvent>, log: Log) {
    && (forall tid :: Audited(audit, tid) <==> Decided(log, tid))
    && (forall tid :: Decided(log, tid) ==> tid in transfers && transfers[tid].status != Uploading)
    && (forall tid :: tid in transfers && transfers[tid].status in {Ready, Expired} ==> Completed(log, tid))
    && (forall tid, fid, size :: Decided(log, tid) ==>
          (Staged(log, tid, fid, size) != [] <==> LeftByShred(log, tid, fid, size)))
  }

  // ---- Entries without effect on content ----

  /** An entry that neither stages nor wipes anything, nor is a verdict of the worker. */
  predicate Silent(e: Entry) {
    match e.reply
    case Done => !e.action.Quarantine?
    case Answered(result) => e.action.Patch? && result.Rejected? && result.code != 413
    case Worked(outcome) => e.action.Job? && !outcome.Processed?
    case Polled(_) => e.action.Poll?
    case Swept(wiped, _) => e.action.Sweep? && wiped == {}
    case Coded(_) => e.action.Delete? || e.action.Revoke?
  }

  /** Nor is a delete without a commit. */
  predicate Quiet(e: Entry) {
    Silent(e) && e.reply != Coded(500)
  }

  lemma SilentIsSilent(log: Log, e: Entry, tid: string)
    requires Silent(e)
    ensures forall fid, size :: Staged(log + [e], tid, fid, size) == Staged(log, tid, fid, size)
    ensures forall fid, size :: Kept(log + [e], tid, fid, size) == Kept(log, tid, fid, size)
    ensures Decided(log + [e], tid) <==> Decided(log, tid)
    ensures Completed(log + [e], tid) <==> Completed(log, tid)
    ensures forall fid, size :: LeftByShred(log + [e], tid, fid, size) <==> LeftByShred(log, tid, fid, size)
  {
    OneMore(log, e, tid);
    assert ShredOf(e, tid).None?;
    assert forall fid, size, content :: PieceOf(e, tid, fid, size, content).None?;
  }

  // ---- Frames: what an action leaves alone ----

  /** The same transfers with the same files, by id and size. */
  ghost predicate SameShapes(before: Transfers, after: Transfers) {
    && after.Keys == before.Keys
    && forall tid :: tid in before ==> EncryptJob.SameFiles(before[tid].files, after[tid].files)
  }

  lemma ShapeOf(before: Transfers, after: Transfers, tid: string, f: FileRow)
    requires SameShapes(before, after) && tid in after && f in after[tid].files
    ensures exists g :: g in before[tid].files && g.id == f.id && g.size == f.size
  {
    var i :| 0 <= i < |after[tid].files| && after[tid].files[i] == f;
    assert before[tid].files[i] in before[tid].files;
  }

  lemma RowsKept(ids: Ids, before: Transfers, after: Transfers, staging: Staging, staging': Staging)
    requires RowsOk(ids, before, staging) && SameShapes(before, after) && Lifecycle.Inv(after)
    requires forall key :: key in staging' ==> key in staging && |staging'[key]| == |staging[key]|
    ensures RowsOk(ids, after, staging')
  {
    forall tid, f | tid in after && f in after[tid].files ensures StagedSize(staging', (tid, f.id)) <= f.size {
      ShapeOf(before, after, tid, f);
    }
  }

  lemma SilentStaged(before: Transfers, after: Transfers, staging: Staging, log: Log, e: Entry)
    requires StagedOk(before, staging, log) && SameShapes(before, after) && Silent(e)
    ensures StagedOk(after, staging, log + [e])
  {
    forall tid, fid, size ensures Staged(log + [e], tid, fid, size) == Staged(log, tid, fid, size) {
      SilentIsSilent(log, e, tid);
    }
    forall tid, f | tid in after && f in after[tid].files
      ensures StagedContent(staging, (tid, f.id)) == Staged(log, tid, f.id, f.size)
    {
      ShapeOf(before, after, tid, f);
    }
  }

  /** Keys after an action that sets none and rewraps none. */
  lemma KeysKept(c: KeyWrap.Cipher, ids: Ids, space: KeySpace, before: Transfers, after: Transfers, keys: Keys,
      origin: map<string, bytes>)
    requires KeysOk(c, ids, space, before, keys, origin)
    requires forall tid :: tid in after && after[tid].wrappedKey.Some? ==>
               tid in before && before[tid].wrappedKey == after[tid].wrappedKey
    ensures KeysOk(c, ids, space, after, keys, origin)
  {
  }

  /** The transfer has the same objects. */
  ghost predicate SameObjects(objects: Objects, objects': Objects, tid: string) {
    forall fid ::
      && (ObjectKey(tid, fid) in objects' <==> ObjectKey(tid, fid) in objects)
      && (ObjectKey(tid, fid) in objects ==> objects'[ObjectKey(tid, fid)] == objects[ObjectKey(tid, fid)])
  }

  lemma OthersUntouched(objects: Objects, objects': Objects, tid: string, other: string)
    requires PlainId(tid) && PlainId(other) && tid != other
    requires EncryptJob.Others(objects', tid) == EncryptJob.Others(objects, tid)
    ensures SameObjects(objects, objects', other)
  {
    forall fid
      ensures ObjectKey(other, fid) in objects' <==> ObjectKey(other, fid) in objects
      ensures ObjectKey(other, fid) in objects ==> objects'[ObjectKey(other, fid)] == objects[ObjectKey(other, fid)]
    {
      KeyBelongsTo(other, tid, fid);
      InOthers(objects, tid, ObjectKey(other, fid));
      InOthers(objects', tid, ObjectKey(other, fid));
    }
  }

  lemma InOthers(objects: Objects, tid: string, key: string)
    requires !(Prefix(tid) <= key)
    ensures key in EncryptJob.Others(objects, tid) <==> key in objects
    ensures key in objects ==> EncryptJob.Others(objects, tid)[key] == objects[key]
  {
  }

  lemma ObjectsKept(s: Suite, objects: Objects, objects': Objects, tid: string, files: seq<FileRow>,
      origin: map<string, bytes>, origin': map<string, bytes>, log: Log, e: Entry)
    requires ObjectsOk(s, objects, tid, files, origin, log) && SameObjects(objects, objects', tid)
    requires tid in origin' && origin'[tid] == origin[tid] && !Completes(e, tid) && !FailsToDelete(e, tid)
    ensures ObjectsOk(s, objects', tid, files, origin', log + [e])
  {
    OneMore(log, e, tid);
  }

  /** What is served was served before, from the same objects. */
  lemma StoredKept(s: Suite, before: Transfers, after: Transfers, objects: Objects, objects': Objects,
      clock: int, clock': int, origin: map<string, bytes>, log: Log, e: Entry)
    requires StoredOk(s, before, objects, clock, origin, log)
    requires forall tid :: tid in after && Served(after[tid], clock') ==>
               && tid in before && Served(before[tid], clock) && after[tid].files == before[tid].files
               && !Completes(e, tid) && !FailsToDelete(e, tid) && SameObjects(objects, objects', tid)
    ensures StoredOk(s, after, objects', clock', origin, log + [e])
  {
    forall tid | tid in after && Served(after[tid], clock')
      ensures ObjectsOk(s, objects', tid, after[tid].files, origin, log + [e])
    {
      ObjectsKept(s, objects, objects', tid, before[tid].files, origin, origin, log, e);
    }
  }

  lemma SilentAudit(before: Transfers, after: Transfers, audit: seq<AuditEvent>, log: Log, e: Entry)
    requires AuditOk(before, audit, log) && Silent(e)
    requires before.Keys <= after.Keys
    requires forall tid :: tid in before && before[tid].status != Uploading ==> after[tid].status != Uploading
    requires forall tid :: tid in after && after[tid].status in {Ready, Expired} ==>
               tid in before && before[tid].status in {Ready, Expired}
    ensures AuditOk(after, audit, log + [e])
  {
    forall tid
      ensures Decided(log + [e], tid) <==> Decided(log, tid)
      ensures Completed(log + [e], tid) <==> Completed(log, tid)
      ensures forall fid, size :: Staged(log + [e], tid, fid, size) == Staged(log, tid, fid, size)
      ensures forall fid, size :: LeftByShred(log + [e], tid, fid, size) <==> LeftByShred(log, tid, fid, size)
    {
      SilentIsSilent(log, e, tid);
    }
  }

  // ---- Deletes, revokes, polls and sweeps, on the rows ----

  /** Rows only go down: no key is set or changed, nothing becomes ready, and nothing becomes
      expired that was not ready. */
  ghost predicate Declines(before: Transfers, after: Transfers) {
    && after.Keys == before.Keys
    && forall tid :: tid in before ==>
         && after[tid].files == before[tid].files && after[tid].expiresAt == before[tid].expiresAt
         && (after[tid].wrappedKey.Some? ==> after[tid].wrappedKey == before[tid].wrappedKey)
         && (before[tid].status != Uploading ==> after[tid].status != Uploading)
         && (after[tid].status == Ready ==> before[tid].status == Ready)
         && (after[tid].status == Expired ==> before[tid].status in {Ready, Expired})
  }

  lemma StepDeclines(rows: Transfers, step: Lifecycle.Step)
    requires step.Delete? || step.Revoke? || step.DefenderPoll? || step.Cleanup?
    ensures Declines(rows, Lifecycle.Apply(rows, step))
  {
  }

  lemma DeleteSparesOthers(objects: Objects, tid: string, stuck: set<string>)
    ensures EncryptJob.Others(DeleteTransfer(objects, tid, stuck), tid) == EncryptJob.Others(objects, tid)
  {
  }

  // ---- PATCH ----

  lemma PatchContent(content: bytes, size: nat, tid: string, fid: string, offset: int, body: bytes,
      result: Tus.PatchResult)
    requires offset == |content|
    requires if Tus.Accepts(content, size, offset, body) then result.Accepted? else result == Tus.Rejected(413)
    ensures AfterEntry(content, Entry(Patch(tid, fid, offset, body), Answered(result)), tid, fid, size)
         == Tus.PatchFile(content, size, offset, body)
  {
  }

  lemma PatchStaged(ids: Ids, transfers: Transfers, staging: Staging, log: Log, file: FileRow, content: bytes,
      tid: string, fid: string, offset: int, body: bytes, result: Tus.PatchResult)
    requires RowsOk(ids, transfers, staging) && StagedOk(transfers, staging, log)
    requires tid in transfers && file in transfers[tid].files && file.id == fid
    requires var e := Entry(Patch(tid, fid, offset, body), Answered(result));
             content == AfterEntry(StagedContent(staging, (tid, fid)), e, tid, fid, file.size)
    ensures StagedOk(transfers, staging[(tid, fid) := content],
                     log + [Entry(Patch(tid, fid, offset, body), Answered(result))])
  {
    var e := Entry(Patch(tid, fid, offset, body), Answered(result));
    forall t, f | t in transfers && f in transfers[t].files
      ensures StagedContent(staging[(tid, fid) := content], (t, f.id)) == Staged(log + [e], t, f.id, f.size)
    {
      OneMore(log, e, t);
      if (t, f.id) == (tid, fid) {
        SameFile(transfers[tid].files, f, file);
      }
    }
    forall t, g, size | t !in transfers ensures Staged(log + [e], t, g, size) == [] {
      OneMore(log, e, t);
    }
  }

  lemma SameFile(files: seq<FileRow>, f: FileRow, g: FileRow)
    requires DistinctFiles(files) && f in files && g in files && f.id == g.id
    ensures f == g
  {
    var i :| 0 <= i < |files| && files[i] == f;
    var j :| 0 <= j < |files| && files[j] == g;
    assert i == j;
  }

  /** A PATCH that gets past the early refusals is for an uploading transfer, so for none with
      a verdict; and a quarantined file is no verdict either. */
  lemma UndecidedAudit(transfers: Transfers, audit: seq<AuditEvent>, log: Log, e: Entry)
    requires AuditOk(transfers, audit, log)
    requires || (e.action.Patch? && e.reply.Answered?
                 && (Quiet(e) || (e.action.tid in transfers && transfers[e.action.tid].status == Uploading)))
             || e.action.Quarantine?
    ensures AuditOk(transfers, audit, log + [e])
  {
    forall tid
      ensures Decided(log + [e], tid) <==> Decided(log, tid)
      ensures Completed(log + [e], tid) <==> Completed(log, tid)
      ensures Decided(log, tid) ==>
                forall fid, size :: Staged(log + [e], tid, fid, size) != [] <==> LeftByShred(log + [e], tid, fid, size)
    {
      OneMore(log, e, tid);
    }
  }

  lemma QuarantineStaged(transfers: Transfers, staging: Staging, log: Log, tid: string, fid: string, reply: Reply)
    requires StagedOk(transfers, staging, log)
    ensures StagedOk(transfers, staging - {(tid, fid)}, log + [Entry(Quarantine(tid, fid), reply)])
  {
    var e := Entry(Quarantine(tid, fid), reply);
    forall t, g, size
      ensures Staged(log + [e], t, g, size) == if (t, g) == (tid, fid) then [] else Staged(log, t, g, size)
    {
      OneMore(log, e, t);
    }
  }

  // ---- Shreds, by the worker and by the sweep ----

  /** The entry shreds the staging files of these transfers. */
  ghost predicate Wipes(e: Entry, wiped: set<string>, fault: ShredFault) {
    match e
    case Entry(Job(tid, _, faults), Worked(Processed(_))) => wiped == {tid} && fault == faults.shred
    case Entry(Sweep(faults), Swept(tids, _)) => wiped == tids && fault == faults.shred
    case _ => false
  }

  lemma WipesShreds(e: Entry, wiped: set<string>, fault: ShredFault, tid: string)
    requires Wipes(e, wiped, fault)
    ensures ShredOf(e, tid) == if tid in wiped then Some(fault) else None
    ensures forall fid, size, content :: PieceOf(e, tid, fid, size, content).None?
    ensures forall fid :: !Takes(e, tid, fid)
  {
  }

  lemma WipedContent(log: Log, e: Entry, wiped: set<string>, fault: ShredFault, tid: string)
    requires Wipes(e, wiped, fault)
    ensures forall fid, size ::
              Staged(log + [e], tid, fid, size) ==
                if tid in wiped then AfterShred(fault, (tid, fid), Staged(log, tid, fid, size))
                else Staged(log, tid, fid, size)
    ensures forall fid, size ::
              LeftByShred(log + [e], tid, fid, size) <==>
                if tid in wiped then (tid, fid) in fault.stuck && Staged(log, tid, fid, size) != []
                else LeftByShred(log, tid, fid, size)
  {
    OneMore(log, e, tid);
    WipesShreds(e, wiped, fault, tid);
  }

  lemma WipeStaged(before: Transfers, after: Transfers, staging: Staging, log: Log, e: Entry,
      wiped: set<string>, fault: ShredFault)
    requires StagedOk(before, staging, log) && SameShapes(before, after) && Wipes(e, wiped, fault)
    requires wiped <= before.Keys
    ensures StagedOk(after, Shred(staging, wiped, fault), log + [e])
  {
    forall tid, f | tid in after && f in after[tid].files
      ensures StagedContent(Shred(staging, wiped, fault), (tid, f.id)) == Staged(log + [e], tid, f.id, f.size)
    {
      WipedContent(log, e, wiped, fault, tid);
      ShapeOf(before, after, tid, f);
      assert StagedContent(staging, (tid, f.id)) == Staged(log, tid, f.id, f.size);
      assert Overwritten(fault, (tid, f.id), []) == [];
    }
    forall tid, fid, size | tid !in after ensures Staged(log + [e], tid, fid, size) == [] {
      WipedContent(log, e, wiped, fault, tid);
    }
  }

  lemma WipeAudit(before: Transfers, after: Transfers, audit: seq<AuditEvent>, audit': seq<AuditEvent>,
      log: Log, e: Entry, wiped: set<string>, fault: ShredFault)
    requires AuditOk(before, audit, log) && Wipes(e, wiped, fault)
    requires after.Keys == before.Keys
    requires forall tid :: Audited(audit', tid) <==> Audited(audit, tid) || Decides(e, tid)
    requires forall tid :: Decides(e, tid) ==> tid in wiped && tid in after && after[tid].status != Uploading
    requires forall tid :: tid in before && before[tid].status != Uploading ==> after[tid].status != Uploading
    requires forall tid :: tid in after && after[tid].status in {Ready, Expired} ==>
               Completes(e, tid) || before[tid].status in {Ready, Expired}
    ensures AuditOk(after, audit', log + [e])
  {
    forall tid
      ensures Decided(log + [e], tid) <==> Decided(log, tid) || Decides(e, tid)
      ensures Completed(log + [e], tid) <==> Completed(log, tid) || Completes(e, tid)
      ensures Decided(log + [e], tid) ==>
                forall fid, size :: Staged(log + [e], tid, fid, size) != [] <==> LeftByShred(log + [e], tid, fid, size)
    {
      OneMore(log, e, tid);
      WipedContent(log, e, wiped, fault, tid);
    }
  }

  // ---- A job that completes ----

  lemma CompletedKeys(c: KeyWrap.Cipher, ids: Ids, space: KeySpace, before: Transfers, after: Transfers, keys: Keys,
      origin: map<string, bytes>, tid: string, fileKey: bytes)
    requires Separate(c, space) && KeysOk(c, ids, space, before, keys, origin) && fileKey in space.fileKeys
    requires tid in before && tid in after && after == before[tid := after[tid]]
    requires after[tid].wrappedKey == Some(KeyWrap.Wrap(c, keys.worker, fileKey))
    ensures KeysOk(c, ids, space, after, keys, origin[tid := fileKey])
  {
    FreshBlobOk(c, space, keys, ids.number(tid), fileKey);
    forall t | t in after ensures RowKeyOk(c, ids, space, keys, origin[tid := fileKey], t, after[t].wrappedKey) {
      assert t != tid ==> RowKeyOk(c, ids, space, keys, origin, t, before[t].wrappedKey);
    }
  }

  /** What the worker wraps opens, under the current key or through the fallback. */
  lemma FreshBlobOk(c: KeyWrap.Cipher, space: KeySpace, keys: Keys, id: Rotation.Id, fileKey: bytes)
    requires Separate(c, space) && fileKey in space.fileKeys && keys.current in space.masters
    requires keys.previous.Some? ==> keys.previous.value in space.masters
    requires keys.worker == keys.current || (keys.previous == Some(keys.worker) && !keys.sound && !keys.finished)
    ensures BlobOk(c, keys, id, KeyWrap.Wrap(c, keys.worker, fileKey), fileKey)
  {
    var blob := KeyWrap.Wrap(c, keys.worker, fileKey);
    if keys.worker == keys.current {
      assert Envelope.WrappedBy(c, keys.current, blob, fileKey);
      Envelope.UnwrapKeyMeaning(c, keys.current, keys.previous, blob, fileKey);
      Envelope.UnwrapKeyMeaning(c, keys.current, None, blob, fileKey);
    } else {
      Envelope.FallbackRecovers(c, keys.current, keys.worker, fileKey);
    }
  }

  lemma CompletedObjects(s: Suite, before: Transfers, after: Transfers, staging: Staging, objects': Objects,
      log: Log, e: Entry, tid: string, fileKey: bytes, origin: map<string, bytes>)
    requires StagedOk(before, staging, log) && SameShapes(before, after) && tid in after && Completes(e, tid)
    requires EncryptJob.StoredAll(s, objects', tid, after[tid].files, fileKey, staging)
    ensures ObjectsOk(s, objects', tid, after[tid].files, origin[tid := fileKey], log + [e])
  {
    OneMore(log, e, tid);
    forall f | f in after[tid].files
      ensures !Lost(log + [e], tid, f.id)
      ensures EncryptJob.StoredFile(s, objects', tid, f, fileKey, Kept(log + [e], tid, f.id, f.size))
    {
      var i :| 0 <= i < |after[tid].files| && after[tid].files[i] == f;
      ShapeOf(before, after, tid, f);
      assert staging[(tid, f.id)] == Staged(log, tid, f.id, f.size);
    }
  }

  lemma JobStored(s: Suite, ids: Ids, before: Transfers, after: Transfers, staging: Staging,
      objects: Objects, objects': Objects, clock: int, origin: map<string, bytes>, origin': map<string, bytes>,
      log: Log, e: Entry, tid: string)
    requires RowsOk(ids, before, staging) && StoredOk(s, before, objects, clock, origin, log)
    requires tid in before && tid in after && after == before[tid := after[tid]]
    requires EncryptJob.Others(objects', tid) == EncryptJob.Others(objects, tid)
    requires forall t :: t in origin && t != tid ==> t in origin' && origin'[t] == origin[t]
    requires e.action.Job? && e.action.tid == tid
    requires after[tid].status == Ready ==> ObjectsOk(s, objects', tid, after[tid].files, origin', log + [e])
    ensures StoredOk(s, after, objects', clock, origin', log + [e])
  {
    forall t | t in after && Served(after[t], clock)
      ensures ObjectsOk(s, objects', t, after[t].files, origin', log + [e])
    {
      if t != tid {
        OthersUntouched(objects, objects', tid, t);
        ObjectsKept(s, objects, objects', t, before[t].files, origin, origin', log, e);
      }
    }
  }

  // ---- The sweep's objects ----

  lemma SweepSpares(ids: Ids, objects: Objects, done: set<string>, stuck: set<string>, tid: string)
    requires forall t :: t in done ==> IsId(ids, t)
    requires IsId(ids, tid) && tid !in done
    ensures SameObjects(objects, Lifecycle.DeleteSome(objects, done, stuck), tid)
  {
    forall fid, t | t in done ensures !(Prefix(t) <= ObjectKey(tid, fid)) {
      KeyBelongsTo(tid, t, fid);
    }
  }

  // ---- Rotation ----

  function Numbers(ids: Ids, transfers: Transfers): set<Rotation.Id> {
    set tid | tid in transfers :: ids.number(tid)
  }

  /** The wrapped_key column, by the ids the database sorts by. */
  function Column(ids: Ids, transfers: Transfers): Rotation.Table
    requires forall tid :: tid in transfers ==> IsId(ids, tid)
  {
    map id | id in Numbers(ids, transfers) && ids.name(id) in transfers :: transfers[ids.name(id)].wrappedKey
  }

  function WriteBack(ids: Ids, transfers: Transfers, column: Rotation.Table): Transfers {
    map tid | tid in transfers ::
      if ids.number(tid) in column then transfers[tid].(wrappedKey := column[ids.number(tid)]) else transfers[tid]
  }

  /** The next chunk of the rewrap loop, as the rotation module computes it. */
  function NextChunk(c: KeyWrap.Cipher, ids: Ids, transfers: Transfers, keys: Keys, limit: nat): Rotation.Online
    requires keys.previous.Some? && forall tid :: tid in transfers ==> IsId(ids, tid)
  {
    Rotation.Apply(c, keys.current, keys.previous.value,
                   Rotation.Online(Column(ids, transfers), map[], keys.lastId, false), Rotation.Chunk(limit))
  }

  /** The cursor afterwards. An empty page ends the request. */
  function KeysAfterChunk(keys: Keys, lastId: Option<Rotation.Id>, ended: bool): Keys {
    var sound := if keys.lastId.None? then keys.worker == keys.current else keys.sound;
    keys.(lastId := lastId, sound := sound, finished := keys.finished || (ended && sound))
  }

  lemma ChunkShape(c: KeyWrap.Cipher, ids: Ids, transfers: Transfers, keys: Keys, limit: nat)
    requires keys.previous.Some? && forall tid :: tid in transfers ==> IsId(ids, tid)
    ensures var before, after := Column(ids, transfers), NextChunk(c, ids, transfers, keys, limit).rows;
            after.Keys == before.Keys && Rotation.Keyed(after) == Rotation.Keyed(before)
  {
  }

  /** One row through one chunk: its key still opens to its file key, and needs the current
      master key alone if the loop has passed it. */
  lemma ChunkBlob(c: KeyWrap.Cipher, ids: Ids, transfers: Transfers, keys: Keys, limit: nat, tid: string,
      fileKey: bytes)
    requires keys.previous.Some? && limit > 0 && forall t :: t in transfers ==> IsId(ids, t)
    requires Envelope.GoodKeys(keys.current, keys.previous)
    requires tid in transfers && transfers[tid].wrappedKey.Some?
    requires BlobOk(c, keys, ids.number(tid), transfers[tid].wrappedKey.value, fileKey)
    ensures var o, id := NextChunk(c, ids, transfers, keys, limit), ids.number(tid);
            && id in o.rows && o.rows[id].Some?
            && BlobOk(c, KeysAfterChunk(keys, o.lastId, o.finished), id, o.rows[id].value, fileKey)
  {
    var column, id, blob := Column(ids, transfers), ids.number(tid), transfers[tid].wrappedKey.value;
    assert id in Numbers(ids, transfers) && id in Rotation.Keyed(column) && column[id] == Some(blob);
    var online := Rotation.Online(column, map[], keys.lastId, false);
    Rotation.ChunkOnRow(c, keys.current, keys.previous.value, online, limit, id);
    RewrappedOk(c, keys, blob, fileKey);
  }

  lemma RewrappedOk(c: KeyWrap.Cipher, keys: Keys, blob: bytes, fileKey: bytes)
    requires keys.previous.Some? && Envelope.GoodKeys(keys.current, keys.previous)
    requires Envelope.UnwrapKey(c, keys.current, blob, keys.previous) == Ok(fileKey)
    ensures var after := Rotation.Rewrapped(c, keys.current, keys.previous.value, blob);
            && Envelope.UnwrapKey(c, keys.current, after, keys.previous) == Ok(fileKey)
            && Envelope.UnwrapKey(c, keys.current, after, None) == Ok(fileKey)
  {
    Envelope.RewrapKeepsFileKey(c, keys.current, keys.previous, blob, fileKey);
    assert Envelope.GoodKeys(keys.current, None);
  }

  /** One chunk of the rewrap loop, on the rows: every key still opens to its file key. */
  lemma ChunkKeys(c: KeyWrap.Cipher, ids: Ids, space: KeySpace, transfers: Transfers, keys: Keys,
      origin: map<string, bytes>, limit: nat)
    requires forall tid :: tid in transfers ==> IsId(ids, tid)
    requires Separate(c, space) && KeysOk(c, ids, space, transfers, keys, origin) && keys.previous.Some? && limit > 0
    ensures var o := NextChunk(c, ids, transfers, keys, limit);
            KeysOk(c, ids, space, WriteBack(ids, transfers, o.rows), KeysAfterChunk(keys, o.lastId, o.finished), origin)
  {
    var o := NextChunk(c, ids, transfers, keys, limit);
    var after, keys' := WriteBack(ids, transfers, o.rows), KeysAfterChunk(keys, o.lastId, o.finished);
    ChunkShape(c, ids, transfers, keys, limit);
    forall tid | tid in after && after[tid].wrappedKey.Some?
      ensures tid in origin && origin[tid] in space.fileKeys
      ensures BlobOk(c, keys', ids.number(tid), after[tid].wrappedKey.value, origin[tid])
    {
      KeyedBefore(ids, transfers, o.rows, tid);
      ChunkBlob(c, ids, transfers, keys, limit, tid, origin[tid]);
    }
  }

  lemma KeyedBefore(ids: Ids, transfers: Transfers, column: Rotation.Table, tid: string)
    requires forall t :: t in transfers ==> IsId(ids, t)
    requires column.Keys == Column(ids, transfers).Keys
    requires Rotation.Keyed(column) == Rotation.Keyed(Column(ids, transfers))
    requires tid in transfers
    ensures var after := WriteBack(ids, transfers, column);
            && ids.number(tid) in column && after[tid].wrappedKey == column[ids.number(tid)]
            && (after[tid].wrappedKey.Some? <==> transfers[tid].wrappedKey.Some?)
  {
    var id := ids.number(tid);
    assert id in Numbers(ids, transfers);
    assert id in Rotation.Keyed(column) <==> id in Rotation.Keyed(Column(ids, transfers));
  }

  /** Rewrapping changes no field of a row but a key that is there. */
  lemma ChunkRows(ids: Ids, transfers: Transfers, column: Rotation.Table)
    requires forall tid :: tid in transfers ==> IsId(ids, tid)
    requires Lifecycle.Inv(transfers)
    requires column.Keys == Column(ids, transfers).Keys
    requires Rotation.Keyed(column) == Rotation.Keyed(Column(ids, transfers))
    ensures var after := WriteBack(ids, transfers, column);
            && Lifecycle.Inv(after) && after.Keys == transfers.Keys
            && forall tid :: tid in after ==> after[tid] == transfers[tid].(wrappedKey := after[tid].wrappedKey)
  {
    var after := WriteBack(ids, transfers, column);
    forall tid | tid in after ensures Lifecycle.RowInv(after[tid]) {
      KeyedBefore(ids, transfers, column, tid);
      assert Lifecycle.RowInv(transfers[tid]);
    }
  }

  /** Installing a new master key keeps every key opening, through the fallback. */
  lemma WindowKeys(c: KeyWrap.Cipher, ids: Ids, space: KeySpace, transfers: Transfers, keys: Keys,
      origin: map<string, bytes>, key: bytes)
    requires Separate(c, space) && KeysOk(c, ids, space, transfers, keys, origin)
    requires keys.previous.None? && key in space.masters && key != keys.current
    ensures KeysOk(c, ids, space, transfers, Opened(keys, key), origin)
  {
    forall tid | tid in transfers && transfers[tid].wrappedKey.Some?
      ensures Envelope.UnwrapKey(c, key, transfers[tid].wrappedKey.value, Some(keys.current)) == Ok(origin[tid])
    {
      var blob, fileKey := transfers[tid].wrappedKey.value, origin[tid];
      Envelope.UnwrapKeyMeaning(c, keys.current, None, blob, fileKey);
      Envelope.FallbackRecovers(c, key, keys.current, fileKey);
    }
  }

  /** The API comes up with a new key next to the old one, which the worker still has. */
  function Opened(keys: Keys, key: bytes): Keys {
    Keys(key, Some(keys.current), keys.worker, None, false, false)
  }

  // ---- The whole state, and every action on it ----

  datatype Setup = Setup(s: Suite, c: KeyWrap.Cipher, ids: Ids, space: KeySpace)

  datatype Stores = Stores(transfers: Transfers, staging: Staging, objects: Objects, audit: seq<AuditEvent>)

  datatype State = State(stores: Stores, clock: int, keys: Keys, origin: map<string, bytes>, log: Log) {
    const transfers := stores.transfers
    const staging := stores.staging
    const objects := stores.objects
    const audit := stores.audit
  }

  ghost predicate Inv(p: Setup, v: State) {
    && Separate(p.c, p.space)
    && RowsOk(p.ids, v.transfers, v.staging)
    && StagedOk(v.transfers, v.staging, v.log)
    && KeysOk(p.c, p.ids, p.space, v.transfers, v.keys, v.origin)
    && StoredOk(p.s, v.transfers, v.objects, v.clock, v.origin, v.log)
    && AuditOk(v.transfers, v.audit, v.log)
  }

  /** Nothing but time, locks or the rewrap cursor changes. */
  lemma QuietKeepsInv(p: Setup, v: State, e: Entry, d: nat)
    requires Inv(p, v) && Quiet(e)
    ensures Inv(p, v.(clock := v.clock + d, log := v.log + [e]))
  {
    SilentStaged(v.transfers, v.transfers, v.staging, v.log, e);
    SilentAudit(v.transfers, v.transfers, v.audit, v.log, e);
    StoredKept(p.s, v.transfers, v.transfers, v.objects, v.objects, v.clock, v.clock + d, v.origin, v.log, e);
  }

  /** An uploading row without staged files appears. */
  lemma CreateKeepsInv(p: Setup, v: State, tid: string, t: Transfer, e: Entry)
    requires Inv(p, v) && Quiet(e) && IsId(p.ids, tid) && tid !in v.transfers
    requires t.status == Uploading && t.wrappedKey.None? && t.deletedAt.None? && DistinctFiles(t.files)
    ensures Inv(p, v.(stores := v.stores.(transfers := v.transfers[tid := t]), log := v.log + [e]))
  {
    var after := v.transfers[tid := t];
    CreatedRows(p.ids, v.transfers, v.staging, tid, t);
    CreatedStaged(v.transfers, v.staging, v.log, e, tid, t);
    KeysKept(p.c, p.ids, p.space, v.transfers, after, v.keys, v.origin);
    SilentAudit(v.transfers, after, v.audit, v.log, e);
    StoredKept(p.s, v.transfers, after, v.objects, v.objects, v.clock, v.clock, v.origin, v.log, e);
  }

  lemma CreatedRows(ids: Ids, transfers: Transfers, staging: Staging, tid: string, t: Transfer)
    requires RowsOk(ids, transfers, staging) && IsId(ids, tid) && tid !in transfers
    requires Lifecycle.RowInv(t) && DistinctFiles(t.files)
    ensures RowsOk(ids, transfers[tid := t], staging)
  {
    var after := transfers[tid := t];
    forall x, f | x in after && f in after[x].files ensures StagedSize(staging, (x, f.id)) <= f.size {
      if x == tid {
        assert (x, f.id) !in staging;
      }
    }
  }

  lemma CreatedStaged(transfers: Transfers, staging: Staging, log: Log, e: Entry, tid: string, t: Transfer)
    requires StagedOk(transfers, staging, log) && Quiet(e) && tid !in transfers
    requires forall key :: key in staging ==> key.0 in transfers
    ensures StagedOk(transfers[tid := t], staging, log + [e])
  {
    forall x, fid, size ensures Staged(log + [e], x, fid, size) == Staged(log, x, fid, size) {
      SilentIsSilent(log, e, x);
    }
    forall f | f in t.files ensures StagedContent(staging, (tid, f.id)) == [] {
      assert (tid, f.id) !in staging;
    }
  }

  /** What a PATCH does, refused or not. */
  ghost predicate PatchRan(transfers: Transfers, staging: Staging, staging': Staging, tid: string, fid: string,
      offset: int, body: bytes, result: Tus.PatchResult)
  {
    var early := Tus.EarlyRejection(transfers, staging, tid, fid, offset);
    && Tus.UploadInvariant(transfers, staging')
    && if early.Some? then result == Tus.Rejected(early.value) && staging' == staging
       else
         var size := FindFile(transfers[tid].files, fid).value.size;
         var content := StagedContent(staging, (tid, fid));
         && staging' == staging[(tid, fid) := Tus.PatchFile(content, size, offset, body)]
         && if Tus.Accepts(content, size, offset, body) then result.Accepted? else result == Tus.Rejected(413)
  }

  lemma PatchKeepsInv(p: Setup, v: State, tid: string, fid: string, offset: int, body: bytes,
      result: Tus.PatchResult, staging: Staging)
    requires Inv(p, v) && PatchRan(v.transfers, v.staging, staging, tid, fid, offset, body, result)
    ensures var e := Entry(Patch(tid, fid, offset, body), Answered(result));
            Inv(p, v.(stores := v.stores.(staging := staging), log := v.log + [e]))
  {
    var e := Entry(Patch(tid, fid, offset, body), Answered(result));
    if Tus.EarlyRejection(v.transfers, v.staging, tid, fid, offset).Some? {
      QuietKeepsInv(p, v, e, 0);
    } else {
      var file := FindFile(v.transfers[tid].files, fid).value;
      PatchContent(StagedContent(v.staging, (tid, fid)), file.size, tid, fid, offset, body, result);
      PatchStaged(p.ids, v.transfers, v.staging, v.log, file, staging[(tid, fid)], tid, fid, offset, body, result);
      UndecidedAudit(v.transfers, v.audit, v.log, e);
      StoredKept(p.s, v.transfers, v.transfers, v.objects, v.objects, v.clock, v.clock, v.origin, v.log, e);
    }
  }

  lemma QuarantineKeepsInv(p: Setup, v: State, tid: string, fid: string)
    requires Inv(p, v)
    ensures Inv(p, v.(stores := v.stores.(staging := v.staging - {(tid, fid)}),
                      log := v.log + [Entry(Quarantine(tid, fid), Done)]))
  {
    var e := Entry(Quarantine(tid, fid), Done);
    QuarantineStaged(v.transfers, v.staging, v.log, tid, fid, Done);
    UndecidedAudit(v.transfers, v.audit, v.log, e);
    StoredKept(p.s, v.transfers, v.transfers, v.objects, v.objects, v.clock, v.clock, v.origin, v.log, e);
    SameShapesRefl(v.transfers);
    RowsKept(p.ids, v.transfers, v.transfers, v.staging, v.staging - {(tid, fid)});
  }

  lemma SameShapesRefl(transfers: Transfers)
    ensures SameShapes(transfers, transfers)
  {
  }

  /** A delete, revoke or poll; only a delete touches objects, and only its own. */
  lemma DeclineKeepsInv(p: Setup, v: State, step: Lifecycle.Step, objects: Objects, e: Entry)
    requires Inv(p, v) && Quiet(e) && (step.Delete? || step.Revoke? || step.DefenderPoll?)
    requires objects != v.objects ==>
               && step.Delete? && step.tid in v.transfers
               && exists stuck :: objects == DeleteTransfer(v.objects, step.tid, stuck)
    ensures Inv(p, v.(stores := v.stores.(transfers := Lifecycle.Apply(v.transfers, step), objects := objects),
                      log := v.log + [e]))
  {
    var after := Lifecycle.Apply(v.transfers, step);
    StepDeclines(v.transfers, step);
    Lifecycle.StepKeepsInv(v.transfers, step);
    if objects == v.objects {
      DeclinedKeepInv(p, v, after, objects, e, None);
    } else {
      var stuck :| objects == DeleteTransfer(v.objects, step.tid, stuck);
      DeleteSparesOthers(v.objects, step.tid, stuck);
      DeclinedKeepInv(p, v, after, objects, e, Some(step.tid));
    }
  }

  /** Rows went down, and objects were lost to one transfer at most, which is not served. */
  ghost predicate Declined(v: State, after: Transfers, objects: Objects, gone: Option<string>) {
    && Declines(v.transfers, after)
    && match gone
       case None => objects == v.objects
       case Some(tid) =>
         && tid in after && after[tid].status != Ready
         && EncryptJob.Others(objects, tid) == EncryptJob.Others(v.objects, tid)
  }

  lemma DeclinedKeepInv(p: Setup, v: State, after: Transfers, objects: Objects, e: Entry, gone: Option<string>)
    requires Inv(p, v) && Quiet(e) && Declined(v, after, objects, gone) && Lifecycle.Inv(after)
    ensures Inv(p, v.(stores := v.stores.(transfers := after, objects := objects), log := v.log + [e]))
  {
    DeclinedRows(p, v, after, e);
    DeclinedObjects(p, v, after, objects, e, gone);
  }

  lemma DeclinedObjects(p: Setup, v: State, after: Transfers, objects: Objects, e: Entry, gone: Option<string>)
    requires Inv(p, v) && Quiet(e) && Declined(v, after, objects, gone)
    ensures StoredOk(p.s, after, objects, v.clock, v.origin, v.log + [e])
  {
    forall tid | tid in after && Served(after[tid], v.clock)
      ensures !Completes(e, tid) && SameObjects(v.objects, objects, tid)
    {
      if gone.Some? {
        assert IsId(p.ids, tid) && IsId(p.ids, gone.value);
        OthersUntouched(v.objects, objects, gone.value, tid);
      }
    }
    StoredKept(p.s, v.transfers, after, v.objects, objects, v.clock, v.clock, v.origin, v.log, e);
  }

  /** A delete without a commit: the rows stay, the transfer's objects go as far as the store
      agrees, and the record says which. */
  lemma FailedDeleteKeepsInv(p: Setup, v: State, tid: string, stuck: set<string>, commitFails: bool)
    requires Inv(p, v) && tid in v.transfers
    ensures var e := Entry(Delete(tid, stuck, commitFails), Coded(500));
            Inv(p, v.(stores := v.stores.(objects := DeleteTransfer(v.objects, tid, stuck)), log := v.log + [e]))
  {
    var e := Entry(Delete(tid, stuck, commitFails), Coded(500));
    var objects := DeleteTransfer(v.objects, tid, stuck);
    SameShapesRefl(v.transfers);
    SilentStaged(v.transfers, v.transfers, v.staging, v.log, e);
    SilentAudit(v.transfers, v.transfers, v.audit, v.log, e);
    DeleteSparesOthers(v.objects, tid, stuck);
    forall t | t in v.transfers && Served(v.transfers[t], v.clock)
      ensures ObjectsOk(p.s, objects, t, v.transfers[t].files, v.origin, v.log + [e])
    {
      assert IsId(p.ids, t) && IsId(p.ids, tid);
      if t == tid {
        LosesObjects(p.s, v.objects, tid, v.transfers[tid].files, v.origin, v.log, stuck, e);
      } else {
        OthersUntouched(v.objects, objects, tid, t);
        ObjectsKept(p.s, v.objects, objects, t, v.transfers[t].files, v.origin, v.origin, v.log, e);
      }
    }
  }

  lemma LosesObjects(s: Suite, objects: Objects, tid: string, files: seq<FileRow>, origin: map<string, bytes>,
      log: Log, stuck: set<string>, e: Entry)
    requires PlainId(tid) && ObjectsOk(s, objects, tid, files, origin, log)
    requires FailsToDelete(e, tid) && e.action.stuck == stuck
    ensures ObjectsOk(s, DeleteTransfer(objects, tid, stuck), tid, files, origin, log + [e])
  {
    OneMore(log, e, tid);
    forall f | f in files
      ensures ObjectKey(tid, f.id) in DeleteTransfer(objects, tid, stuck) <==>
                ObjectKey(tid, f.id) in objects && ObjectKey(tid, f.id) in stuck
    {
      DeleteTransferIsExact(objects, tid, stuck, tid, f.id);
    }
  }

  lemma DeclinedRows(p: Setup, v: State, after: Transfers, e: Entry)
    requires Inv(p, v) && Quiet(e) && Declines(v.transfers, after) && Lifecycle.Inv(after)
    ensures RowsOk(p.ids, after, v.staging) && StagedOk(after, v.staging, v.log + [e])
    ensures KeysOk(p.c, p.ids, p.space, after, v.keys, v.origin) && AuditOk(after, v.audit, v.log + [e])
  {
    assert SameShapes(v.transfers, after);
    RowsKept(p.ids, v.transfers, after, v.staging, v.staging);
    SilentStaged(v.transfers, after, v.staging, v.log, e);
    KeysKept(p.c, p.ids, p.space, v.transfers, after, v.keys, v.origin);
    SilentAudit(v.transfers, after, v.audit, v.log, e);
  }

  /** A sweep, carried through or abandoned: what it wiped is past its expiry date. */
  lemma SweepKeepsInv(p: Setup, v: State, faults: Lifecycle.SweepFaults, wiped: set<string>, committed: bool,
      after: Transfers)
    requires Inv(p, v) && wiped <= Lifecycle.SweepSet(v.transfers, v.clock)
    requires after == v.transfers || after == Lifecycle.Sweep(v.transfers, v.clock)
    ensures Inv(p, v.(stores := v.stores.(transfers := after,
                                            staging := Shred(v.staging, wiped, faults.shred),
                                            objects := Lifecycle.DeleteSome(v.objects, wiped, faults.stuck)),
                      log := v.log + [Entry(Sweep(faults), Swept(wiped, committed))]))
  {
    var e := Entry(Sweep(faults), Swept(wiped, committed));
    SweepRows(v.transfers, v.clock, after);
    SweptFiles(p.ids, v.stores, v.log, wiped, after, e, faults.shred);
    KeysKept(p.c, p.ids, p.space, v.transfers, after, v.keys, v.origin);
    SweptObjects(p, v, faults, wiped, after, e);
  }

  lemma SweptFiles(ids: Ids, v: Stores, log: Log, wiped: set<string>, after: Transfers, e: Entry, fault: ShredFault)
    requires RowsOk(ids, v.transfers, v.staging) && StagedOk(v.transfers, v.staging, log)
    requires AuditOk(v.transfers, v.audit, log)
    requires Declines(v.transfers, after) && SameShapes(v.transfers, after) && Lifecycle.Inv(after)
    requires Wipes(e, wiped, fault) && e.action.Sweep? && wiped <= v.transfers.Keys
    ensures RowsOk(ids, after, Shred(v.staging, wiped, fault))
    ensures StagedOk(after, Shred(v.staging, wiped, fault), log + [e]) && AuditOk(after, v.audit, log + [e])
  {
    RowsKept(ids, v.transfers, after, v.staging, Shred(v.staging, wiped, fault));
    WipeStaged(v.transfers, after, v.staging, log, e, wiped, fault);
    WipeAudit(v.transfers, after, v.audit, v.audit, log, e, wiped, fault);
  }

  lemma SweptObjects(p: Setup, v: State, faults: Lifecycle.SweepFaults, wiped: set<string>, after: Transfers, e: Entry)
    requires Inv(p, v) && Declines(v.transfers, after) && e.action.Sweep?
    requires wiped <= Lifecycle.SweepSet(v.transfers, v.clock)
    ensures StoredOk(p.s, after, Lifecycle.DeleteSome(v.objects, wiped, faults.stuck), v.clock, v.origin, v.log + [e])
  {
    var objects := Lifecycle.DeleteSome(v.objects, wiped, faults.stuck);
    forall tid | tid in after && Served(after[tid], v.clock) ensures SameObjects(v.objects, objects, tid) {
      assert IsId(p.ids, tid) && tid !in wiped;
      SweepSpares(p.ids, v.objects, wiped, faults.stuck, tid);
    }
    StoredKept(p.s, v.transfers, after, v.objects, objects, v.clock, v.clock, v.origin, v.log, e);
  }

  lemma SweepRows(transfers: Transfers, clock: int, after: Transfers)
    requires Lifecycle.Inv(transfers)
    requires after == transfers || after == Lifecycle.Sweep(transfers, clock)
    ensures Declines(transfers, after) && SameShapes(transfers, after) && Lifecycle.Inv(after)
  {
    StepDeclines(transfers, Lifecycle.Cleanup(clock));
    Lifecycle.StepKeepsInv(transfers, Lifecycle.Cleanup(clock));
  }

  /** What a job does to the stores, whatever becomes of it. */
  ghost predicate JobRan(s: Suite, c: KeyWrap.Cipher, master: bytes, v: Stores, v': Stores, tid: string,
      rnd: EncryptJob.Random, faults: EncryptJob.Faults, outcome: EncryptJob.Outcome)
  {
    match outcome
    case Processed(result) =>
      && tid in v.transfers && v.transfers[tid].status == Uploading
      && v'.transfers == Lifecycle.Apply(v.transfers, Lifecycle.Encrypt(tid, result))
      && v'.staging == Shred(v.staging, {tid}, faults.shred)
      && v'.audit == v.audit + VerdictRow(tid, result)
      && EncryptJob.Others(v'.objects, tid) == EncryptJob.Others(v.objects, tid)
      && (result.Completed? ==>
            && Envelope.WrappedBy(c, master, result.wrappedKey, rnd.fileKey)
            && EncryptJob.SameFiles(v.transfers[tid].files, result.files)
            && EncryptJob.StoredAll(s, v'.objects, tid, result.files, rnd.fileKey, v.staging))
    case _ => v' == v
  }

  lemma JobKeepsInv(p: Setup, v: State, stores: Stores, tid: string, rnd: EncryptJob.Random,
      faults: EncryptJob.Faults, outcome: EncryptJob.Outcome)
    requires Inv(p, v) && rnd.fileKey in p.space.fileKeys
    requires JobRan(p.s, p.c, v.keys.worker, v.stores, stores, tid, rnd, faults, outcome)
    ensures Inv(p, v.(stores := stores,
                      origin := OriginAfter(v.origin, tid, rnd, outcome),
                      log := v.log + [Entry(Job(tid, rnd, faults), Worked(outcome))]))
  {
    var e := Entry(Job(tid, rnd, faults), Worked(outcome));
    if !outcome.Processed? {
      QuietKeepsInv(p, v, e, 0);
      return;
    }
    JobRows(v.transfers, tid, outcome.result);
    JobFiles(p, v.stores, v.log, stores, v.keys.worker, tid, rnd, faults, outcome.result, e);
    JobKeysAndObjects(p, v, stores, tid, rnd, faults, outcome.result, e);
  }

  lemma JobFiles(p: Setup, v: Stores, log: Log, stores: Stores, master: bytes, tid: string, rnd: EncryptJob.Random,
      faults: EncryptJob.Faults, result: Lifecycle.EncryptResult, e: Entry)
    requires RowsOk(p.ids, v.transfers, v.staging) && StagedOk(v.transfers, v.staging, log)
    requires AuditOk(v.transfers, v.audit, log)
    requires JobRan(p.s, p.c, master, v, stores, tid, rnd, faults, EncryptJob.Processed(result))
    requires e == Entry(Job(tid, rnd, faults), Worked(EncryptJob.Processed(result)))
    requires SameShapes(v.transfers, stores.transfers) && tid in stores.transfers
    requires stores.transfers == v.transfers[tid := stores.transfers[tid]]
    requires stores.transfers[tid] == Lifecycle.EncryptRow(v.transfers[tid], result)
    ensures RowsOk(p.ids, stores.transfers, stores.staging)
    ensures StagedOk(stores.transfers, stores.staging, log + [e])
    ensures AuditOk(stores.transfers, stores.audit, log + [e])
  {
    var before, after := v.transfers, stores.transfers;
    Lifecycle.StepKeepsInv(before, Lifecycle.Encrypt(tid, result));
    RowsKept(p.ids, before, after, v.staging, stores.staging);
    WipeStaged(before, after, v.staging, log, e, {tid}, faults.shred);
    JobAudit(before, after, v.audit, stores.audit, log, e, result);
  }

  function OriginAfter(origin: map<string, bytes>, tid: string, rnd: EncryptJob.Random, outcome: EncryptJob.Outcome)
    : map<string, bytes>
  {
    if outcome.Processed? && outcome.result.Completed? then origin[tid := rnd.fileKey] else origin
  }

  lemma JobKeysAndObjects(p: Setup, v: State, stores: Stores, tid: string, rnd: EncryptJob.Random,
      faults: EncryptJob.Faults, result: Lifecycle.EncryptResult, e: Entry)
    requires Inv(p, v) && rnd.fileKey in p.space.fileKeys
    requires JobRan(p.s, p.c, v.keys.worker, v.stores, stores, tid, rnd, faults, EncryptJob.Processed(result))
    requires e == Entry(Job(tid, rnd, faults), Worked(EncryptJob.Processed(result)))
    requires SameShapes(v.transfers, stores.transfers) && tid in stores.transfers
    requires stores.transfers == v.transfers[tid := stores.transfers[tid]]
    requires stores.transfers[tid] == Lifecycle.EncryptRow(v.transfers[tid], result)
    ensures var origin := OriginAfter(v.origin, tid, rnd, EncryptJob.Processed(result));
            && KeysOk(p.c, p.ids, p.space, stores.transfers, v.keys, origin)
            && StoredOk(p.s, stores.transfers, stores.objects, v.clock, origin, v.log + [e])
  {
    var before, after := v.transfers, stores.transfers;
    var origin := OriginAfter(v.origin, tid, rnd, EncryptJob.Processed(result));
    if result.Completed? {
      CompletedKeys(p.c, p.ids, p.space, before, after, v.keys, v.origin, tid, rnd.fileKey);
      CompletedObjects(p.s, before, after, v.staging, stores.objects, v.log, e, tid, rnd.fileKey, v.origin);
    } else {
      KeysKept(p.c, p.ids, p.space, before, after, v.keys, v.origin);
    }
    JobStored(p.s, p.ids, before, after, v.staging, v.objects, stores.objects, v.clock, v.origin, origin,
              v.log, e, tid);
  }

  lemma JobAudit(before: Transfers, after: Transfers, audit: seq<AuditEvent>, audit': seq<AuditEvent>, log: Log,
      e: Entry, result: Lifecycle.EncryptResult)
    requires AuditOk(before, audit, log)
    requires e.action.Job? && e.reply == Worked(EncryptJob.Processed(result))
    requires e.action.tid in before && e.action.tid in after && after == before[e.action.tid := after[e.action.tid]]
    requires after[e.action.tid] == Lifecycle.EncryptRow(before[e.action.tid], result)
    requires before[e.action.tid].status == Uploading
    requires audit' == audit + VerdictRow(e.action.tid, result)
    ensures AuditOk(after, audit', log + [e])
  {
    WipeAudit(before, after, audit, audit', log, e, {e.action.tid}, e.action.faults.shred);
  }

  /** The audit row the worker writes. */
  function VerdictRow(tid: string, result: Lifecycle.EncryptResult): seq<AuditEvent> {
    match result
    case Completed(_, _) => [UploadComplete(tid)]
    case Failed(_) => [UploadFailed(tid)]
    case Stranded => []
  }

  lemma JobRows(rows: Transfers, tid: string, result: Lifecycle.EncryptResult)
    requires tid in rows && rows[tid].status == Uploading
    requires result.Completed? ==> EncryptJob.SameFiles(rows[tid].files, result.files)
    ensures var after := Lifecycle.Apply(rows, Lifecycle.Encrypt(tid, result));
            && SameShapes(rows, after) && tid in after && after == rows[tid := after[tid]]
            && after[tid] == Lifecycle.EncryptRow(rows[tid], result)
  {
  }

  /** A chunk of the rewrap loop, committed, abandoned or found empty. */
  lemma ChunkKeepsInv(p: Setup, v: State, limit: nat, e: Entry)
    requires Inv(p, v) && Quiet(e) && v.keys.previous.Some? && limit > 0
    ensures var o := NextChunk(p.c, p.ids, v.transfers, v.keys, limit);
            Inv(p, v.(stores := v.stores.(transfers := WriteBack(p.ids, v.transfers, o.rows)),
                      keys := KeysAfterChunk(v.keys, o.lastId, o.finished),
                      log := v.log + [e]))
  {
    ChunkShape(p.c, p.ids, v.transfers, v.keys, limit);
    ChunkKeys(p.c, p.ids, p.space, v.transfers, v.keys, v.origin, limit);
    ChunkRest(p, v, NextChunk(p.c, p.ids, v.transfers, v.keys, limit).rows, e);
  }

  lemma ChunkRest(p: Setup, v: State, column: Rotation.Table, e: Entry)
    requires Inv(p, v) && Quiet(e)
    requires column.Keys == Column(p.ids, v.transfers).Keys
    requires Rotation.Keyed(column) == Rotation.Keyed(Column(p.ids, v.transfers))
    ensures var after := WriteBack(p.ids, v.transfers, column);
            && RowsOk(p.ids, after, v.staging) && StagedOk(after, v.staging, v.log + [e])
            && StoredOk(p.s, after, v.objects, v.clock, v.origin, v.log + [e]) && AuditOk(after, v.audit, v.log + [e])
  {
    ChunkRows(p.ids, v.transfers, column);
    RekeyedRows(p, v, WriteBack(p.ids, v.transfers, column), e);
  }

  /** Rows that differ from the service's in their keys only. */
  lemma RekeyedRows(p: Setup, v: State, after: Transfers, e: Entry)
    requires Inv(p, v) && Quiet(e) && Lifecycle.Inv(after) && after.Keys == v.transfers.Keys
    requires forall tid :: tid in after ==> after[tid] == v.transfers[tid].(wrappedKey := after[tid].wrappedKey)
    ensures RowsOk(p.ids, after, v.staging) && StagedOk(after, v.staging, v.log + [e])
    ensures StoredOk(p.s, after, v.objects, v.clock, v.origin, v.log + [e]) && AuditOk(after, v.audit, v.log + [e])
  {
    assert SameShapes(v.transfers, after);
    RowsKept(p.ids, v.transfers, after, v.staging, v.staging);
    SilentStaged(v.transfers, after, v.staging, v.log, e);
    SilentAudit(v.transfers, after, v.audit, v.log, e);
    StoredKept(p.s, v.transfers, after, v.objects, v.objects, v.clock, v.clock, v.origin, v.log, e);
  }

  /** What an operator can check before removing the previous master key: the worker has the
      current one, and every stored key opens without the previous one. */
  predicate SafeToClose(c: KeyWrap.Cipher, transfers: Transfers, keys: Keys) {
    && keys.worker == keys.current
    && forall tid :: tid in transfers && transfers[tid].wrappedKey.Some? ==>
         Envelope.UnwrapKey(c, keys.current, transfers[tid].wrappedKey.value, None).Ok?
  }

  /** Removing the previous master key keeps the invariant exactly then. */
  lemma CloseIffSafe(p: Setup, v: State)
    requires Inv(p, v) && v.keys.previous.Some?
    ensures Inv(p, v.(keys := v.keys.(previous := None))) <==> SafeToClose(p.c, v.transfers, v.keys)
  {
    forall tid | tid in v.transfers && v.transfers[tid].wrappedKey.Some?
      ensures Envelope.UnwrapKey(p.c, v.keys.current, v.transfers[tid].wrappedKey.value, None).Ok? <==>
                Envelope.UnwrapKey(p.c, v.keys.current, v.transfers[tid].wrappedKey.value, None) == Ok(v.origin[tid])
    {
      assert BlobOk(p.c, v.keys, p.ids.number(tid), v.transfers[tid].wrappedKey.value, v.origin[tid]);
    }
  }

  /** A rewrap that began after the worker's restart and has ended makes it safe. */
  lemma FinishedIsSafe(p: Setup, v: State)
    requires Inv(p, v) && v.keys.finished
    ensures SafeToClose(p.c, v.transfers, v.keys)
  {
    forall tid | tid in v.transfers && v.transfers[tid].wrappedKey.Some?
      ensures Envelope.UnwrapKey(p.c, v.keys.current, v.transfers[tid].wrappedKey.value, None).Ok?
    {
      assert BlobOk(p.c, v.keys, p.ids.number(tid), v.transfers[tid].wrappedKey.value, v.origin[tid]);
    }
  }

  /** A window opens, or closes when that is safe; the worker is restarted; or the rewrap
      request dies. */
  ghost predicate KeyChange(c: KeyWrap.Cipher, space: KeySpace, transfers: Transfers, keys: Keys, keys': Keys) {
    || (keys.previous.None? && keys'.current in space.masters && keys'.current != keys.current
        && keys' == Opened(keys, keys'.current))
    || (keys.previous.Some? && SafeToClose(c, transfers, keys) && keys' == keys.(previous := None))
    || keys' == keys.(worker := keys.current)
    || keys' == keys.(lastId := None)
  }

  lemma KeysKeepInv(p: Setup, v: State, keys: Keys, e: Entry)
    requires Inv(p, v) && Quiet(e) && KeyChange(p.c, p.space, v.transfers, v.keys, keys)
    ensures Inv(p, v.(keys := keys, log := v.log + [e]))
  {
    QuietKeepsInv(p, v, e, 0);
    if v.keys.previous.None? && keys == Opened(v.keys, keys.current) && keys.current in p.space.masters
        && keys.current != v.keys.current {
      WindowKeys(p.c, p.ids, p.space, v.transfers, v.keys, v.origin, keys.current);
    } else if v.keys.previous.Some? && keys == v.keys.(previous := None) {
      CloseIffSafe(p, v);
    }
  }

  // ---- What follows from the invariant ----

  /** Every file of a served transfer is recoverable as the bytes kept for it, or was lost to a
      delete without a commit; the transfer's key opens either way. */
  lemma ServedIsRecoverable(p: Setup, v: State, tid: string, f: FileRow)
    requires Inv(p, v) && tid in v.transfers && Served(v.transfers[tid], v.clock) && f in v.transfers[tid].files
    ensures tid in v.origin && v.transfers[tid].wrappedKey.Some?
    ensures Envelope.UnwrapKey(p.c, v.keys.current, v.transfers[tid].wrappedKey.value, v.keys.previous)
         == Ok(v.origin[tid])
    ensures if Lost(v.log, tid, f.id) then ObjectKey(tid, f.id) !in v.objects
            else
              && |Kept(v.log, tid, f.id, f.size)| == f.size
              && Download.Recoverable(p.s, p.c, v.keys.current, v.keys.previous, v.transfers[tid], v.objects, tid, f,
                                      v.origin[tid], Kept(v.log, tid, f.id, f.size))
  {
    assert Lifecycle.RowInv(v.transfers[tid]);
    assert ObjectsOk(p.s, v.objects, tid, v.transfers[tid].files, v.origin, v.log);
  }

  /** Exactly which plaintext is left of a file whose transfer is past `uploading`. If the audit
      log has the worker's verdict: what a shred could not unlink, and nothing else. Otherwise
      everything that was staged when a delete, revoke or poll took the transfer out of
      service, which is pieces of PATCH bodies unless a shred has overwritten some of it. */
  ghost predicate FileAsRecorded(stores: Stores, log: Log, tid: string, f: FileRow) {
    var content := StagedContent(stores.staging, (tid, f.id));
    && content == Staged(log, tid, f.id, f.size)
    && (Audited(stores.audit, tid) ==> (content != [] <==> LeftByShred(log, tid, f.id, f.size)))
    && (!Scrambled(log, tid, f.id, f.size) ==> content == Flatten(Pieces(log, tid, f.id, f.size)))
  }

  /** Ready and expired transfers always have the verdict. */
  ghost predicate PlaintextAsRecorded(stores: Stores, log: Log) {
    forall tid :: tid in stores.transfers && stores.transfers[tid].status != Uploading ==>
      && (forall f :: f in stores.transfers[tid].files ==> FileAsRecorded(stores, log, tid, f))
      && (stores.transfers[tid].status in {Ready, Expired} ==> Audited(stores.audit, tid))
  }

  lemma PlaintextLeft(p: Setup, v: State)
    requires Inv(p, v)
    ensures PlaintextAsRecorded(v.stores, v.log)
  {
    forall tid | tid in v.transfers && v.transfers[tid].status != Uploading
      ensures forall f :: f in v.transfers[tid].files ==> FileAsRecorded(v.stores, v.log, tid, f)
      ensures v.transfers[tid].status in {Ready, Expired} ==> Audited(v.audit, tid)
    {
      if Completed(v.log, tid) {
        CompletedIsDecided(v.log, tid);
      }
      forall f | f in v.transfers[tid].files ensures FileAsRecorded(v.stores, v.log, tid, f) {
        if !Scrambled(v.log, tid, f.id, f.size) {
          StagedIsPieces(v.log, tid, f.id, f.size);
        }
      }
    }
  }
}
