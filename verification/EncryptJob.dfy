/** One run of the encrypt worker (backend/app/worker/tasks/encrypt.py): lock, status check,
    the per-file loop, the commit, recovery from a failure at any point, shredding of the
    staging files and release of the lock. */
module EncryptJob {
  import opened Bytes
  import opened Streams
  import opened Storage
  import opened StreamCipher
  import opened Model
  import opened Lifecycle
  import KeyWrap
  import Envelope

  /** How the commit of the ready state goes: a cancellation is not an `Exception`, so the
      recovery handler does not see it. */
  datatype Commit = Works | Raises | Cancelled

  /** How setting the lock goes: if it raises or is cancelled, the lock may have been set all
      the same. */
  datatype LockSet = Answered | Unanswered(taken: bool)

  /** Which outside operations fail, or are cancelled, during the run. */
  datatype Faults = Faults(
    lock: LockSet,         // setting the lock
    lookup: bool,          // loading the transfer row
    query: bool,           // loading its file rows, after the status check
    put: nat -> bool,      // reading, encrypting or storing the i-th file
    commit: Commit,        // committing the ready state
    recovery: bool,        // the database, while marking the transfer infected
    stuck: set<string>,    // objects the store refuses to delete
    shred: ShredFault,     // unlinking staging files
    release: bool)         // deleting the lock

  /** Nothing fails that keeps a run from completing. */
  ghost predicate Faultless(faults: Faults) {
    && faults.lock.Answered? && !faults.lookup && !faults.query && faults.commit == Works
    && forall i :: !faults.put(i)
  }

  /** What the system's random source delivers. */
  datatype Random = Random(fileKey: bytes, iv: nat -> bytes)

  ghost predicate GoodRandom(rnd: Random) {
    |rnd.fileKey| == KEY_LEN && forall i :: |rnd.iv(i)| == IV_LEN
  }

  datatype EncryptError = FileMissing | SizeMismatch | PutFailed

  /** The same files, by id and declared size, in the same order. */
  ghost predicate SameFiles(a: seq<FileRow>, b: seq<FileRow>) {
    |a| == |b| && forall i :: 0 <= i < |a| ==> a[i].id == b[i].id && a[i].size == b[i].size
  }

  predicate FileFits(staging: Staging, tid: string, f: FileRow) {
    (tid, f.id) in staging && |staging[(tid, f.id)]| == f.size
  }

  /** The object of this file is the sealing of these bytes under the row's iv, and the row has
      the digest of the ciphertext without its tag. */
  predicate StoredFile(s: Suite, objects: Objects, tid: string, f: FileRow, fileKey: bytes, plain: bytes) {
    var key := ObjectKey(tid, f.id);
    && key in objects && |f.iv| == IV_LEN && |plain| == f.size && objects[key] == Seal(s, fileKey, f.iv, plain)
    && f.sha256 == s.sha256(objects[key][..|plain|])
  }

  ghost predicate StoredAll(s: Suite, objects: Objects, tid: string, files: seq<FileRow>, fileKey: bytes,
      plain: Staging)
  {
    forall i :: 0 <= i < |files| ==>
      (tid, files[i].id) in plain && StoredFile(s, objects, tid, files[i], fileKey, plain[(tid, files[i].id)])
  }

  /** The objects outside one transfer's prefix. */
  function Others(objects: Objects, tid: string): Objects {
    map key | key in objects && !(Prefix(tid) <= key) :: objects[key]
  }

  lemma PutKeepsOthers(objects: Objects, tid: string, fid: string, data: bytes)
    ensures Others(objects[ObjectKey(tid, fid) := data], tid) == Others(objects, tid)
  {
    assert ObjectKey(tid, fid)[..|tid| + 1] == Prefix(tid);
  }

  /** The body of the per-file loop: find the staged file, check its size, encrypt it into
      a temporary buffer and upload the buffer. */
  method EncryptFile(s: Suite, w: World, tid: string, f: FileRow, rnd: Random, iv: bytes, putFails: bool)
    returns (r: Result<FileRow, EncryptError>)
    requires |rnd.fileKey| == KEY_LEN && |iv| == IV_LEN
    modifies w`objects
    ensures r.Ok? <==> (tid, f.id) in w.staging && |w.staging[(tid, f.id)]| == f.size && !putFails
    ensures r == Err(FileMissing) <==> (tid, f.id) !in w.staging
    ensures r == Err(SizeMismatch) <==> (tid, f.id) in w.staging && |w.staging[(tid, f.id)]| != f.size
    ensures r.Ok? ==>
              var plain, key := w.staging[(tid, f.id)], ObjectKey(tid, f.id);
              && w.objects == old(w.objects)[key := Seal(s, rnd.fileKey, iv, plain)]
              && Encrypted(s, rnd.fileKey, iv, plain, w.objects[key])
              && r.value.id == f.id && r.value.size == f.size && r.value.iv == iv
              && r.value.sha256 == s.sha256(w.objects[key][..f.size])
    ensures r.Err? ==> w.objects == old(w.objects)
  {
    var path := (tid, f.id);
    if path !in w.staging {
      return Err(FileMissing);
    }
    var plain := w.staging[path];
    if |plain| != f.size {
      return Err(SizeMismatch);
    }
    var src := new ByteSource(plain);
    var buffer := new ByteSink();
    var digest := EncryptStream(s, rnd.fileKey, iv, src, buffer, CHUNK);
    if putFails {
      return Err(PutFailed);
    }
    assert buffer.contents == Seal(s, rnd.fileKey, iv, plain);
    assert buffer.contents[0..] == buffer.contents;
    w.objects := w.objects[ObjectKey(tid, f.id) := buffer.contents];
    return Ok(f.(iv := iv, sha256 := digest.value));
  }

  lemma StoredOneMore(s: Suite, objects: Objects, tid: string, files: seq<FileRow>, fileKey: bytes,
      plain: Staging, f: FileRow)
    requires PlainId(tid) && StoredAll(s, objects, tid, files, fileKey, plain)
    requires forall i :: 0 <= i < |files| ==> files[i].id != f.id
    requires (tid, f.id) in plain && |f.iv| == IV_LEN && |plain[(tid, f.id)]| == f.size
    requires f.sha256 == s.sha256(Seal(s, fileKey, f.iv, plain[(tid, f.id)])[..f.size])
    ensures var more := objects[ObjectKey(tid, f.id) := Seal(s, fileKey, f.iv, plain[(tid, f.id)])];
            StoredAll(s, more, tid, files + [f], fileKey, plain)
  {
    forall i | 0 <= i < |files| ensures ObjectKey(tid, files[i].id) != ObjectKey(tid, f.id) {
      if ObjectKey(tid, files[i].id) == ObjectKey(tid, f.id) {
        ObjectKeyInjective(tid, files[i].id, tid, f.id);
      }
    }
  }

  /** Every file has the iv drawn for it. */
  ghost predicate DrawnIvs(files: seq<FileRow>, rnd: Random) {
    forall i :: 0 <= i < |files| ==> files[i].iv == rnd.iv(i)
  }

  /** The per-file loop. It succeeds exactly when every file is staged at its declared size
      and every upload works; then every object is in place and decryptable. Objects of
      other transfers are never touched, whether or not it succeeds. */
  method EncryptFiles(s: Suite, w: World, tid: string, files: seq<FileRow>, rnd: Random, put: nat -> bool)
    returns (r: Result<seq<FileRow>, EncryptError>)
    requires PlainId(tid) && DistinctFiles(files) && GoodRandom(rnd)
    modifies w`objects
    ensures r.Ok? <==> forall i :: 0 <= i < |files| ==> FileFits(w.staging, tid, files[i]) && !put(i)
    ensures r.Ok? ==> StoredAll(s, w.objects, tid, r.value, rnd.fileKey, w.staging)
    ensures r.Ok? ==> SameFiles(files, r.value) && DrawnIvs(r.value, rnd)
    ensures Others(w.objects, tid) == Others(old(w.objects), tid)
  {
    var sealed: seq<FileRow> := [];
    for i := 0 to |files|
      invariant |sealed| == i && SameFiles(files[..i], sealed) && DrawnIvs(sealed, rnd)
      invariant forall j :: 0 <= j < i ==> FileFits(w.staging, tid, files[j]) && !put(j)
      invariant StoredAll(s, w.objects, tid, sealed, rnd.fileKey, w.staging)
      invariant Others(w.objects, tid) == Others(old(w.objects), tid)
    {
      ghost var before := w.objects;
      var row := EncryptFile(s, w, tid, files[i], rnd, rnd.iv(i), put(i));
      if row.Err? {
        return Err(row.error);
      }
      StoredOneMore(s, before, tid, sealed, rnd.fileKey, w.staging, row.value);
      PutKeepsOthers(before, tid, files[i].id, w.objects[ObjectKey(tid, files[i].id)]);
      sealed := sealed + [row.value];
    }
    return Ok(sealed);
  }

  datatype Outcome =
    | Skipped                                 // another worker holds the lock
    | Ignored                                 // no such transfer, or not uploading
    | Aborted                                 // no answer to the lock, or the rows could not be read
    | Processed(result: EncryptResult)

  ghost predicate AllFilesGood(staging: Staging, tid: string, files: seq<FileRow>, put: nat -> bool) {
    forall i :: 0 <= i < |files| ==> FileFits(staging, tid, files[i]) && !put(i)
  }

  /** The run gets as far as committing: every file is good and the master key is usable. */
  ghost predicate ReachesCommit(staging: Staging, tid: string, files: seq<FileRow>, master: bytes, faults: Faults) {
    AllFilesGood(staging, tid, files, faults.put) && |master| == KEY_LEN
  }

  ghost predicate Succeeds(staging: Staging, tid: string, files: seq<FileRow>, master: bytes, faults: Faults) {
    ReachesCommit(staging, tid, files, master, faults) && faults.commit == Works
  }

  /** The run leaves the row uploading: it was cancelled while committing, or it failed and
      the database failed again during recovery. */
  ghost predicate Strands(staging: Staging, tid: string, files: seq<FileRow>, master: bytes, faults: Faults) {
    if ReachesCommit(staging, tid, files, master, faults)
    then faults.commit == Cancelled || (faults.commit == Raises && faults.recovery)
    else faults.recovery
  }

  /** The part of a run from the file rows to the shredding of the staging files. */
  method EncryptTransfer(s: Suite, c: KeyWrap.Cipher, w: World, tid: string, master: bytes,
      rnd: Random, faults: Faults, now: int)
    returns (result: EncryptResult)
    requires PlainId(tid) && tid in w.transfers && w.transfers[tid].status == Uploading
    requires DistinctFiles(w.transfers[tid].files) && GoodRandom(rnd)
    modifies w`transfers, w`objects, w`staging, w`audit
    ensures w.transfers == Apply(old(w.transfers), Encrypt(tid, result))
    ensures result.Completed? ==>
              w.transfers == old(w.transfers)[tid := old(w.transfers)[tid].(
                status := Ready, wrappedKey := Some(result.wrappedKey), files := result.files)]
    ensures result.Failed? ==>
              w.transfers == old(w.transfers)[tid := old(w.transfers)[tid].(
                status := Infected, infectedAt := Some(now))]
    ensures result.Stranded? ==> w.transfers == old(w.transfers)
    ensures result.Completed? <==> Succeeds(old(w.staging), tid, old(w.transfers)[tid].files, master, faults)
    ensures result.Stranded? <==> Strands(old(w.staging), tid, old(w.transfers)[tid].files, master, faults)
    ensures result.Completed? ==>
              && result.wrappedKey == KeyWrap.Wrap(c, master, rnd.fileKey)
              && SameFiles(old(w.transfers)[tid].files, result.files) && DrawnIvs(result.files, rnd)
              && StoredAll(s, w.objects, tid, result.files, rnd.fileKey, old(w.staging))
              && w.audit == old(w.audit) + [UploadComplete(tid)]
    ensures result.Failed? ==>
              && (forall key :: key in w.objects && Prefix(tid) <= key ==> key in faults.stuck)
              && w.audit == old(w.audit) + [UploadFailed(tid)]
    ensures result.Stranded? ==> w.audit == old(w.audit)
    ensures w.staging == Shred(old(w.staging), {tid}, faults.shred)
    ensures Others(w.objects, tid) == Others(old(w.objects), tid)
  {
    var transfer := w.transfers[tid];
    var sealed := EncryptFiles(s, w, tid, transfer.files, rnd, faults.put);
    var wrapped := Envelope.WrapKey(c, master, rnd.fileKey);
    var commits := sealed.Ok? && wrapped.Ok?;
    if commits && faults.commit == Works {
      w.transfers := w.transfers[tid :=
        transfer.(status := Ready, wrappedKey := Some(wrapped.value), files := sealed.value)];
      w.audit := w.audit + [UploadComplete(tid)];
      result := Completed(wrapped.value, sealed.value);
    } else if (commits && faults.commit == Cancelled) || faults.recovery {
      result := Stranded;
    } else {
      w.transfers := w.transfers[tid := transfer.(status := Infected, infectedAt := Some(now))];
      w.audit := w.audit + [UploadFailed(tid)];
      w.objects := DeleteTransfer(w.objects, tid, faults.stuck);
      result := Failed(now);
    }
    w.staging := Shred(w.staging, {tid}, faults.shred);
  }

  /** One dequeued job, whatever fails or is cancelled in it. It ends in exactly one of these
      ways, each with its exact condition:
      - skipped or ignored, nothing changed;
      - aborted, because setting the lock raised, or the row or its file rows could not be
        read: nothing changed either, the staging files included;
      - ready, with the key wrapped and every object stored and decryptable;
      - infected, with no object left that the store agreed to delete;
      - stranded: the row still uploading.
      In the last three the staging files are gone, save those that could not be unlinked.
      The lock is released unless releasing it fails, or setting it raised although it was set. */
  method ProcessEncryptJob(s: Suite, c: KeyWrap.Cipher, w: World, tid: string, master: bytes,
      rnd: Random, faults: Faults, now: int)
    returns (outcome: Outcome)
    requires PlainId(tid) && GoodRandom(rnd)
    requires tid in w.transfers ==> DistinctFiles(w.transfers[tid].files)
    modifies w`transfers, w`objects, w`staging, w`audit, w`locks
    ensures outcome == Skipped <==> faults.lock.Answered? && tid in old(w.locks)
    ensures outcome == Ignored <==>
              && faults.lock.Answered? && tid !in old(w.locks) && !faults.lookup
              && (tid !in old(w.transfers) || old(w.transfers)[tid].status != Uploading)
    ensures outcome == Aborted <==>
              || faults.lock.Unanswered?
              || (tid !in old(w.locks) &&
                  (faults.lookup ||
                   (tid in old(w.transfers) && old(w.transfers)[tid].status == Uploading && faults.query)))
    ensures !outcome.Processed? ==>
              && w.transfers == old(w.transfers) && w.objects == old(w.objects)
              && w.staging == old(w.staging) && w.audit == old(w.audit)
    ensures var started := faults.lock.Answered? && tid !in old(w.locks) && !faults.lookup
                           && tid in old(w.transfers) && old(w.transfers)[tid].status == Uploading && !faults.query;
            var good := started && |master| == 32
                        && forall f :: f in old(w.transfers)[tid].files ==>
                             (tid, f.id) in old(w.staging) && |old(w.staging)[(tid, f.id)]| == f.size;
            var works := good && forall i :: 0 <= i < |old(w.transfers)[tid].files| ==> !faults.put(i);
            && (outcome.Processed? <==> started)
            && (outcome.Processed? && outcome.result.Completed? <==> works && faults.commit == Works)
            && (outcome.Processed? && outcome.result.Failed? <==>
                  started && (works ==> faults.commit == Raises) && !faults.recovery)
    ensures w.locks ==
              match faults.lock
              case Unanswered(taken) => if taken then old(w.locks) + {tid} else old(w.locks)
              case Answered => if outcome == Skipped || !faults.release then old(w.locks) else old(w.locks) + {tid}
    ensures outcome.Processed? ==>
              var files := old(w.transfers)[tid].files;
              && w.transfers == Apply(old(w.transfers), Encrypt(tid, outcome.result))
              && (outcome.result.Completed? <==> Succeeds(old(w.staging), tid, files, master, faults))
              && (outcome.result.Stranded? <==> Strands(old(w.staging), tid, files, master, faults))
              && w.staging == Shred(old(w.staging), {tid}, faults.shred)
              && Others(w.objects, tid) == Others(old(w.objects), tid)
    ensures outcome.Processed? && outcome.result.Completed? ==>
              && w.transfers == old(w.transfers)[tid := old(w.transfers)[tid].(
                   status := Ready, wrappedKey := Some(KeyWrap.Wrap(c, master, rnd.fileKey)),
                   files := outcome.result.files)]
              && SameFiles(old(w.transfers)[tid].files, w.transfers[tid].files)
              && DrawnIvs(w.transfers[tid].files, rnd)
              && StoredAll(s, w.objects, tid, w.transfers[tid].files, rnd.fileKey, old(w.staging))
              && w.audit == old(w.audit) + [UploadComplete(tid)]
    ensures outcome.Processed? && outcome.result.Failed? ==>
              && w.transfers == old(w.transfers)[tid := old(w.transfers)[tid].(
                   status := Infected, infectedAt := Some(now))]
              && (forall key :: key in w.objects && Prefix(tid) <= key ==> key in faults.stuck)
              && w.audit == old(w.audit) + [UploadFailed(tid)]
    ensures outcome.Processed? && outcome.result.Stranded? ==>
              w.transfers == old(w.transfers) && w.audit == old(w.audit)
  {
    if faults.lock.Unanswered? {
      if faults.lock.taken {
        w.locks := w.locks + {tid};
      }
      return Aborted;
    }
    if tid in w.locks {
      return Skipped;
    }
    ghost var locks := w.locks;
    w.locks := w.locks + {tid};
    if faults.lookup {
      outcome := Aborted;
    } else if tid !in w.transfers || w.transfers[tid].status != Uploading {
      outcome := Ignored;
    } else if faults.query {
      outcome := Aborted;
    } else {
      var result := EncryptTransfer(s, c, w, tid, master, rnd, faults, now);
      outcome := Processed(result);
    }
    if !faults.release {
      w.locks := w.locks - {tid};
      assert w.locks == locks;
    }
  }

  /** A run cancelled while committing, and the next job for the same transfer. The second run
      completes exactly when every file survived the first one's shredding, and then what it
      stores is what shredding left behind: bytes overwritten with noise included, since only
      the size of a staged file is checked. */
  method RetryAfterCancellation(s: Suite, c: KeyWrap.Cipher, w: World, tid: string, master: bytes,
      rnd: Random, faults: Faults, rnd': Random, faults': Faults, now: int)
    returns (first: Outcome, second: Outcome)
    requires PlainId(tid) && GoodRandom(rnd) && GoodRandom(rnd') && |master| == KEY_LEN && tid !in w.locks
    requires tid in w.transfers && w.transfers[tid].status == Uploading && DistinctFiles(w.transfers[tid].files)
    requires AllFilesGood(w.staging, tid, w.transfers[tid].files, faults.put)
    requires faults.lock.Answered? && !faults.lookup && !faults.query && faults.commit == Cancelled && !faults.release
    requires faults'.lock.Answered? && !faults'.lookup && !faults'.query && faults'.commit == Works
    requires forall i :: !faults'.put(i)
    modifies w
    ensures first == Processed(Stranded) && second.Processed?
    ensures second.result.Completed? <==>
              forall i :: 0 <= i < |old(w.transfers)[tid].files| ==>
                (tid, old(w.transfers)[tid].files[i].id) in faults.shred.stuck
    ensures second.result.Completed? ==>
              && tid in w.transfers && w.transfers[tid].status == Ready
              && StoredAll(s, w.objects, tid, w.transfers[tid].files, rnd'.fileKey,
                           Shred(old(w.staging), {tid}, faults.shred))
  {
    ghost var files, staging := w.transfers[tid].files, w.staging;
    first := ProcessEncryptJob(s, c, w, tid, master, rnd, faults, now);
    ghost var left := w.staging;
    forall i | 0 <= i < |files|
      ensures FileFits(left, tid, files[i]) <==> (tid, files[i].id) in faults.shred.stuck
    {
      assert FileFits(staging, tid, files[i]);
    }
    second := ProcessEncryptJob(s, c, w, tid, master, rnd', faults', now);
  }
}
