/** The request handlers and the poll that change transfer rows, as they run against the
    stores; each is tied to its step of the life cycle
    (backend/app/services/transfer.py, backend/app/routers/public.py:742-796,
    backend/app/routers/admin.py:457-519, backend/app/worker/tasks/defender_poll.py). */
module Handlers {
  import opened Bytes
  import opened Model
  import opened Storage
  import opened Lifecycle

  datatype FileRequest = FileRequest(id: string, size: nat)

  /** The rows of the requested files, in order: id and size as requested, and zeros until the
      worker fills in iv and digest. */
  ghost predicate Placeholders(files: seq<FileRow>, requested: seq<FileRequest>) {
    |files| == |requested| && forall i :: 0 <= i < |requested| ==>
      && files[i].id == requested[i].id && files[i].size == requested[i].size
      && files[i].iv == Zeros(12) && files[i].sha256 == Zeros(32)
  }

  /** Creation writes the row and its file rows, and nothing else: no staging directory. */
  method CreateTransfer(w: World, tid: string, now: int, expiresAt: int, requested: seq<FileRequest>)
    requires tid !in w.transfers
    requires forall i, j :: 0 <= i < j < |requested| ==> requested[i].id != requested[j].id
    modifies w`transfers
    ensures tid in w.transfers && DistinctFiles(w.transfers[tid].files)
    ensures w.transfers == Apply(old(w.transfers), Create(tid, expiresAt, now, w.transfers[tid].files))
    ensures w.transfers == old(w.transfers)[tid := w.transfers[tid]]
    ensures var t := w.transfers[tid];
            && t.status == Uploading && t.createdAt == now && t.expiresAt == expiresAt
            && t.wrappedKey.None? && t.deletedAt.None? && t.infectedAt.None? && t.revokedAt.None?
            && Placeholders(t.files, requested)
  {
    var files: seq<FileRow> := [];
    for i := 0 to |requested|
      invariant Placeholders(files, requested[..i])
    {
      files := files + [FileRow(requested[i].id, requested[i].size, Zeros(12), Zeros(32))];
    }
    assert requested[..|requested|] == requested;
    w.transfers := w.transfers[tid := Transfer(Uploading, None, now, expiresAt, None, None, None, files)];
  }

  /** Sender or admin delete: the objects go first, as far as the store agrees, and then the row
      is shredded. If the commit fails, the row stays as it was while the objects are gone. A
      second delete touches nothing. */
  method DeleteHandler(w: World, tid: string, now: int, stuck: set<string>, commitFails: bool) returns (code: nat)
    modifies w`transfers, w`objects
    ensures code == if tid !in old(w.transfers) then 404
                    else if old(w.transfers)[tid].status != Deleted && commitFails then 500 else 204
    ensures w.transfers == if code == 500 then old(w.transfers) else Apply(old(w.transfers), Delete(tid, now))
    ensures w.objects ==
              if tid in old(w.transfers) && old(w.transfers)[tid].status != Deleted
              then DeleteTransfer(old(w.objects), tid, stuck) else old(w.objects)
    ensures code == 204 && old(w.transfers)[tid].status == Deleted ==> w.transfers == old(w.transfers)
    ensures code == 204 && old(w.transfers)[tid].status != Deleted ==>
              w.transfers == old(w.transfers)[tid := old(w.transfers)[tid].(
                status := Deleted, wrappedKey := None, deletedAt := Some(now))]
    ensures tid in w.transfers && code == 204 && RowInv(old(w.transfers)[tid]) ==> w.transfers[tid].wrappedKey.None?
  {
    if tid !in w.transfers {
      return 404;
    }
    var t := w.transfers[tid];
    if t.status == Deleted {
      return 204;
    }
    w.objects := DeleteTransfer(w.objects, tid, stuck);
    if commitFails {
      return 500;
    }
    w.transfers := w.transfers[tid := t.(status := Deleted, wrappedKey := None, deletedAt := Some(now))];
    return 204;
  }

  /** Sender or admin revoke: keeps the key and the objects. */
  method RevokeHandler(w: World, tid: string, now: int) returns (code: nat)
    modifies w`transfers
    ensures code == if tid in old(w.transfers) then 204 else 404
    ensures w.transfers == Apply(old(w.transfers), Revoke(tid, now))
    ensures code == 204 && old(w.transfers)[tid].status in {Uploading, Ready} ==>
              w.transfers == old(w.transfers)[tid := old(w.transfers)[tid].(
                status := Revoked, revokedAt := Some(now))]
    ensures code == 404 ==> w.transfers == old(w.transfers)
    ensures code == 204 && old(w.transfers)[tid].status !in {Uploading, Ready} ==> w.transfers == old(w.transfers)
  {
    if tid !in w.transfers {
      return 404;
    }
    var t := w.transfers[tid];
    if t.status in {Revoked, Deleted, Expired, Infected} {
      return 204;
    }
    assert t.status == Uploading || t.status == Ready;
    w.transfers := w.transfers[tid := t.(status := Revoked, revokedAt := Some(now))];
    return 204;
  }

  /** The files of one transfer that have vanished from an existing staging directory. */
  method MissingFiles(w: World, tid: string, directories: set<string>) returns (missing: seq<string>)
    requires tid in w.transfers
    ensures missing != [] <==>
              tid in directories && exists f :: f in w.transfers[tid].files && (tid, f.id) !in w.staging
    ensures forall id :: id in missing ==>
              (tid, id) !in w.staging && exists f :: f in w.transfers[tid].files && f.id == id
  {
    missing := [];
    var files := w.transfers[tid].files;
    for i := 0 to |files|
      invariant missing != [] <==> tid in directories && exists f :: f in files[..i] && (tid, f.id) !in w.staging
      invariant forall id :: id in missing ==> (tid, id) !in w.staging && exists f :: f in files && f.id == id
    {
      assert files[i] in files;
      assert forall f :: f in files[..i + 1] <==> f in files[..i] || f == files[i];
      if tid !in directories {
        continue;
      }
      if (tid, files[i].id) !in w.staging {
        missing := missing + [files[i].id];
      }
    }
    assert files[..|files|] == files;
  }

  predicate Candidate(t: Transfer, now: int) {
    t.status == Uploading && t.createdAt < now - MIN_AGE
  }

  function Infect(rows: Transfers, flagged: set<string>, now: int): Transfers {
    map tid | tid in rows :: if tid in flagged then EncryptInfected(rows[tid], now) else rows[tid]
  }

  lemma InfectOneMore(rows: Transfers, flagged: set<string>, now: int, tid: string)
    requires tid in rows && tid !in flagged
    ensures Infect(rows, flagged, now)[tid] == rows[tid]
    ensures Infect(rows, flagged + {tid}, now) == Infect(rows, flagged, now)[tid := EncryptInfected(rows[tid], now)]
  {
  }

  lemma InfectNone(rows: Transfers, now: int)
    ensures Infect(rows, {}, now) == rows
  {
  }

  function QuarantinedSet(rows: Transfers, staging: Staging, directories: set<string>, now: int): set<string> {
    set tid | tid in rows && Quarantined(tid, rows[tid], staging, directories, now)
  }

  lemma InfectIsPoll(rows: Transfers, staging: Staging, directories: set<string>, now: int)
    ensures Infect(rows, QuarantinedSet(rows, staging, directories, now), now) == Poll(rows, staging, directories, now)
  {
  }

  /** The defender poll over the candidates it selected. What it flipped is returned as a set; the
      code returns their number. */
  method RunDefenderPollOnce(w: World, candidates: seq<string>, directories: set<string>, now: int)
    returns (flipped: set<string>)
    requires forall tid :: tid in candidates <==> tid in w.transfers && Candidate(w.transfers[tid], now)
    requires forall i, j :: 0 <= i < j < |candidates| ==> candidates[i] != candidates[j]
    modifies w`transfers
    ensures w.transfers == Apply(old(w.transfers), DefenderPoll(w.staging, directories, now))
    ensures flipped == QuarantinedSet(old(w.transfers), w.staging, directories, now)
    ensures forall tid :: tid in flipped <==>
              && tid in old(w.transfers) && old(w.transfers)[tid].status == Uploading
              && old(w.transfers)[tid].createdAt < now - 10 && tid in directories
              && exists f :: f in old(w.transfers)[tid].files && (tid, f.id) !in w.staging
    ensures w.transfers.Keys == old(w.transfers).Keys
    ensures forall tid :: tid in w.transfers ==>
              w.transfers[tid] ==
                if tid in flipped then old(w.transfers)[tid].(status := Infected, infectedAt := Some(now))
                else old(w.transfers)[tid]
  {
    ghost var rows := w.transfers;
    ghost var due := QuarantinedSet(rows, w.staging, directories, now);
    flipped := {};
    InfectNone(rows, now);
    for i := 0 to |candidates|
      invariant w.transfers == Infect(rows, flipped, now)
      invariant flipped <= due && forall tid :: tid in flipped <==> tid in candidates[..i] && tid in due
    {
      var tid := candidates[i];
      assert tid !in flipped && tid in candidates;
      InfectOneMore(rows, flipped, now, tid);
      var missing := MissingFiles(w, tid, directories);
      if missing != [] {
        w.transfers := w.transfers[tid := w.transfers[tid].(status := Infected, infectedAt := Some(now))];
        flipped := flipped + {tid};
      }
    }
    assert flipped == due;
    InfectIsPoll(rows, w.staging, directories, now);
  }
}
