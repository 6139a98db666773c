/** The rows as the record tells them: status, expiry date and files of every transfer follow
    from the actions and answers alone. */
module History {
  import opened Bytes
  import opened Model
  import opened Record
  import EncryptJob
  import Handlers

  /** The files requested, by id and size. */
  ghost predicate AsRequested(files: seq<FileRow>, requested: seq<Handlers.FileRequest>) {
    |files| == |requested| && forall i :: 0 <= i < |files| ==>
      files[i].id == requested[i].id && files[i].size == requested[i].size
  }

  lemma {:induction false} FindsRequested(files: seq<FileRow>, requested: seq<Handlers.FileRequest>, fid: string)
    requires AsRequested(files, requested)
    ensures match DeclaredSize(requested, fid)
            case None => FindFile(files, fid).None?
            case Some(size) => FindFile(files, fid).Some? && FindFile(files, fid).value.size == size
  {
    if files != [] && files[0].id != fid {
      FindsRequested(files[1..], requested[1..], fid);
    }
  }

  /** The row is as created, has the recorded status, and has not expired early. */
  ghost predicate RowAsRecorded(t: Transfer, tid: string, clock: int, log: Log) {
    && StatusOf(log, tid) == Some(t.status)
    && CreationOf(log, tid).Some? && CreationOf(log, tid).value.expiresAt == t.expiresAt
    && AsRequested(t.files, CreationOf(log, tid).value.requested)
    && (t.status == Expired ==> t.expiresAt < clock)
  }

  ghost predicate RowsAsRecorded(transfers: Transfers, clock: int, log: Log) {
    && (forall tid :: tid in transfers ==> RowAsRecorded(transfers[tid], tid, clock, log))
    && (forall tid :: tid !in transfers ==> StatusOf(log, tid).None? && CreationOf(log, tid).None?)
  }

  /** The rows keep their expiry dates and files, and their statuses follow the entry. */
  ghost predicate Follows(before: Transfers, after: Transfers, clock: int, e: Entry) {
    && after.Keys == before.Keys
    && (e.action.Create? ==> e.action.tid in before)
    && (forall tid :: tid !in before ==> AfterStatus(None, e, tid) == None)
    && forall tid :: tid in before ==>
         && after[tid].expiresAt == before[tid].expiresAt
         && EncryptJob.SameFiles(before[tid].files, after[tid].files)
         && AfterStatus(Some(before[tid].status), e, tid) == Some(after[tid].status)
         && (after[tid].status == Expired ==> before[tid].status == Expired || before[tid].expiresAt < clock)
  }

  lemma OneMoreStatus(log: Log, e: Entry, tid: string)
    ensures StatusOf(log + [e], tid) == AfterStatus(StatusOf(log, tid), e, tid)
    ensures CreationOf(log + [e], tid) ==
              match CreationOf(log, tid)
              case Some(c) => Some(c)
              case None =>
                if e.action.Create? && e.action.tid == tid
                then Some(Creation(e.action.expiresAt, e.action.requested)) else None
  {
    assert (log + [e])[..|log|] == log;
  }

  lemma FollowsRecord(before: Transfers, after: Transfers, clock: int, clock': int, log: Log, e: Entry)
    requires RowsAsRecorded(before, clock, log) && Follows(before, after, clock', e) && clock <= clock'
    ensures RowsAsRecorded(after, clock', log + [e])
  {
    forall tid | tid in after ensures RowAsRecorded(after[tid], tid, clock', log + [e]) {
      OneMoreStatus(log, e, tid);
      assert RowAsRecorded(before[tid], tid, clock, log);
    }
    forall tid | tid !in after ensures StatusOf(log + [e], tid).None? && CreationOf(log + [e], tid).None? {
      OneMoreStatus(log, e, tid);
    }
  }

  lemma CreateRecord(before: Transfers, tid: string, t: Transfer, clock: int, log: Log, e: Entry)
    requires RowsAsRecorded(before, clock, log) && tid !in before
    requires e.action.Create? && e.action.tid == tid
    requires t.status == Uploading && t.expiresAt == e.action.expiresAt && AsRequested(t.files, e.action.requested)
    ensures RowsAsRecorded(before[tid := t], clock, log + [e])
  {
    var after := before[tid := t];
    forall x | x in after ensures RowAsRecorded(after[x], x, clock, log + [e]) {
      OneMoreStatus(log, e, x);
      assert x != tid ==> RowAsRecorded(before[x], x, clock, log);
    }
    forall x | x !in after ensures StatusOf(log + [e], x).None? && CreationOf(log + [e], x).None? {
      OneMoreStatus(log, e, x);
    }
  }

  /** The entry is no news for any row. */
  predicate NoNews(e: Entry) {
    match e.action
    case Create(_, _, _) => false
    case Job(_, _, _) => !(e.reply.Worked? && e.reply.outcome.Processed?)
    case Delete(_, _, _) => e.reply != Coded(204)
    case Revoke(_) => e.reply != Coded(204)
    case Poll(_) => false
    case Sweep(_) => false
    case _ => true
  }

  lemma NoNewsKeeps(before: Transfers, after: Transfers, clock: int, clock': int, log: Log, e: Entry)
    requires RowsAsRecorded(before, clock, log) && clock <= clock'
    requires NoNews(e) || (e.action.Create? && e.action.tid in before)
    requires after.Keys == before.Keys
    requires forall tid :: tid in before ==>
               && after[tid].expiresAt == before[tid].expiresAt && after[tid].files == before[tid].files
               && after[tid].status == before[tid].status
    ensures RowsAsRecorded(after, clock', log + [e])
  {
    FollowsRecord(before, after, clock, clock', log, e);
  }
}
