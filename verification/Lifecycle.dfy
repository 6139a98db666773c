/** The life of a transfer row: every handler and worker that changes it, each as one atomic
    step, and what holds over every run of them. */
module Lifecycle {
  import opened Bytes
  import opened Model
  import opened Storage

  // ---- What each actor does to a row ----

  function NewTransfer(now: int, expiresAt: int, files: seq<FileRow>): Transfer {
    Transfer(Uploading, None, now, expiresAt, None, None, None, files)
  }

  function EncryptReady(t: Transfer, wrappedKey: bytes, files: seq<FileRow>): Transfer {
    t.(status := Ready, wrappedKey := Some(wrappedKey), files := files)
  }

  function EncryptInfected(t: Transfer, now: int): Transfer {
    t.(status := Infected, infectedAt := Some(now))
  }

  /** Sender and admin delete: a second delete does nothing. */
  function DeleteRow(t: Transfer, now: int): Transfer {
    if t.status == Deleted then t
    else t.(status := Deleted, wrappedKey := None, deletedAt := Some(now))
  }

  /** Sender and admin revoke. */
  function RevokeRow(t: Transfer, now: int): Transfer {
    if t.status in {Revoked, Deleted, Expired, Infected} then t
    else t.(status := Revoked, revokedAt := Some(now))
  }

  predicate Sweepable(t: Transfer, now: int) {
    t.status == Ready && t.expiresAt < now
  }

  function SweepRow(t: Transfer, now: int): Transfer {
    if Sweepable(t, now) then t.(status := Expired, wrappedKey := None, deletedAt := Some(now)) else t
  }

  const MIN_AGE := 10

  /** The defender poll flags an upload older than MIN_AGE whose staging directory exists
      while one of its files does not. */
  predicate Quarantined(tid: string, t: Transfer, staging: Staging, directories: set<string>, now: int) {
    && t.status == Uploading && t.createdAt < now - MIN_AGE
    && tid in directories && exists f :: f in t.files && (tid, f.id) !in staging
  }

  function RewrapRow(t: Transfer, blob: bytes): Transfer {
    if t.wrappedKey.None? then t else t.(wrappedKey := Some(blob))
  }

  // ---- The loops over the table ----

  function Sweep(rows: Transfers, now: int): Transfers {
    map tid | tid in rows :: SweepRow(rows[tid], now)
  }

  function Poll(rows: Transfers, staging: Staging, directories: set<string>, now: int): Transfers {
    map tid | tid in rows ::
      if Quarantined(tid, rows[tid], staging, directories, now) then EncryptInfected(rows[tid], now) else rows[tid]
  }

  function SweepSet(rows: Transfers, now: int): set<string> {
    set tid | tid in rows && Sweepable(rows[tid], now)
  }

  // What the sweep has done once it has processed the transfers in `done`.

  function SweepSome(rows: Transfers, done: set<string>, now: int): Transfers {
    map tid | tid in rows :: if tid in done then SweepRow(rows[tid], now) else rows[tid]
  }

  function DeleteSome(objects: Objects, done: set<string>, stuck: set<string>): Objects {
    map key | key in objects && (key in stuck || forall tid :: tid in done ==> !(Prefix(tid) <= key)) :: objects[key]
  }

  lemma SweepOneMore(rows: Transfers, done: set<string>, now: int, tid: string)
    requires tid in rows && tid !in done && Sweepable(rows[tid], now)
    ensures SweepSome(rows, done, now)[tid] == rows[tid]
    ensures SweepSome(rows, done, now)[tid := SweepRow(rows[tid], now)] == SweepSome(rows, done + {tid}, now)
  {
  }

  lemma NothingSwept(rows: Transfers, staging: Staging, objects: Objects, now: int, faults: SweepFaults)
    ensures SweepSome(rows, {}, now) == rows
    ensures Shred(staging, {}, faults.shred) == staging && DeleteSome(objects, {}, faults.stuck) == objects
  {
  }

  lemma AllSwept(rows: Transfers, now: int)
    ensures SweepSome(rows, SweepSet(rows, now), now) == Sweep(rows, now)
  {
  }

  lemma DeleteOneMore(staging: Staging, objects: Objects, done: set<string>, faults: SweepFaults, tid: string)
    requires tid !in done
    ensures Shred(Shred(staging, done, faults.shred), {tid}, faults.shred) == Shred(staging, done + {tid}, faults.shred)
    ensures DeleteTransfer(DeleteSome(objects, done, faults.stuck), tid, faults.stuck)
         == DeleteSome(objects, done + {tid}, faults.stuck)
  {
  }

  /** What can fail during a sweep, and how it then ends. */
  datatype SweepFaults = SweepFaults(stuck: set<string>, shred: ShredFault, commit: bool)

  datatype SweepError = ShredRaised | CommitFailed

  predicate SweepFails(rows: Transfers, staging: Staging, now: int, faults: SweepFaults) {
    || (exists tid :: tid in SweepSet(rows, now) && ShredRaises(staging, tid, faults.shred))
    || (SweepSet(rows, now) != {} && faults.commit)
  }

  /** One transfer's objects and staging files. */
  method WipeTransfer(w: World, tid: string, faults: SweepFaults) returns (raises: bool)
    modifies w`staging, w`objects
    ensures w.objects == DeleteTransfer(old(w.objects), tid, faults.stuck)
    ensures w.staging == Shred(old(w.staging), {tid}, faults.shred)
    ensures raises <==> ShredRaises(old(w.staging), tid, faults.shred)
  {
    raises := ShredRaises(w.staging, tid, faults.shred);
    w.objects := DeleteTransfer(w.objects, tid, faults.stuck);
    w.staging := Shred(w.staging, {tid}, faults.shred);
  }

  /** The loop of the sweep: the rows it wants to commit, and the transfers it wiped before it
      came to the end or a shred raised. */
  method SweepSelected(w: World, now: int, selected: seq<string>, faults: SweepFaults)
    returns (pending: Transfers, wiped: set<string>, raised: bool)
    requires forall tid :: tid in selected ==> tid in SweepSet(w.transfers, now)
    requires forall i, j :: 0 <= i < j < |selected| ==> selected[i] != selected[j]
    modifies w`staging, w`objects
    ensures pending == SweepSome(w.transfers, wiped, now) && wiped <= Elements(selected)
    ensures w.staging == Shred(old(w.staging), wiped, faults.shred)
    ensures w.objects == DeleteSome(old(w.objects), wiped, faults.stuck)
    ensures if raised then exists tid :: tid in wiped && ShredRaises(old(w.staging), tid, faults.shred)
            else wiped == Elements(selected) && |wiped| == |selected| && NoneRaises(old(w.staging), wiped, faults.shred)
  {
    pending, wiped, raised := w.transfers, {}, false;
    ghost var staging, objects := w.staging, w.objects;
    NothingSwept(w.transfers, staging, objects, now, faults);
    for i := 0 to |selected|
      invariant i == |wiped| && wiped == Elements(selected[..i])
      invariant pending == SweepSome(w.transfers, wiped, now)
      invariant w.staging == Shred(staging, wiped, faults.shred)
      invariant w.objects == DeleteSome(objects, wiped, faults.stuck)
      invariant NoneRaises(staging, wiped, faults.shred)
    {
      var tid := selected[i];
      assert tid in SweepSet(w.transfers, now) && tid !in wiped;
      SweepOneMore(w.transfers, wiped, now, tid);
      DeleteOneMore(staging, objects, wiped, faults, tid);
      RaisesLater(staging, wiped, faults.shred, tid);
      var t := pending[tid];
      pending := pending[tid := t.(status := Expired, wrappedKey := None, deletedAt := Some(now))];
      raised := WipeTransfer(w, tid, faults);
      assert Elements(selected[..i + 1]) == wiped + {tid};
      wiped := wiped + {tid};
      if raised {
        return;
      }
    }
    assert selected[..|selected|] == selected;
  }

  /** The expiry sweep. The selection is made once; each selected transfer loses its objects,
      as far as the store agrees, and its staging files; the rows are committed together at
      the end. A shred that raises, or a failing commit, abandons the sweep: the rows stay
      as they were, ready and with their keys, although some have lost their objects
      (`wiped`); all of those are past their expiry date. */
  method RunCleanupOnce(w: World, now: int, selected: seq<string>, faults: SweepFaults)
    returns (r: Result<nat, SweepError>, wiped: set<string>)
    requires forall tid :: tid in selected <==> tid in SweepSet(w.transfers, now)
    requires forall i, j :: 0 <= i < j < |selected| ==> selected[i] != selected[j]
    modifies w`transfers, w`staging, w`objects
    ensures r.Err? <==> SweepFails(old(w.transfers), old(w.staging), now, faults)
    ensures r.Ok? ==> w.transfers == Sweep(old(w.transfers), now) && wiped == SweepSet(old(w.transfers), now)
    ensures r.Ok? ==> r.value == |wiped| && NoneLeft(w.staging, wiped)
    ensures r.Err? ==> w.transfers == old(w.transfers) && wiped <= SweepSet(old(w.transfers), now)
    ensures forall tid :: tid in wiped ==>
              && tid in old(w.transfers) && old(w.transfers)[tid].status == Ready
              && old(w.transfers)[tid].expiresAt < now
    ensures r.Ok? ==> w.transfers.Keys == old(w.transfers).Keys
    ensures r.Ok? ==> forall tid :: tid in w.transfers ==>
              var t := old(w.transfers)[tid];
              && w.transfers[tid] == (if tid in wiped then
                   t.(status := Expired, wrappedKey := None, deletedAt := Some(now)) else t)
              && (tid in wiped <==> t.status == Ready && t.expiresAt < now)
    ensures w.staging == Shred(old(w.staging), wiped, faults.shred)
    ensures w.objects == DeleteSome(old(w.objects), wiped, faults.stuck)
  {
    var pending, raised;
    pending, wiped, raised := SweepSelected(w, now, selected, faults);
    if raised {
      return Err(ShredRaised), wiped;
    }
    assert wiped == SweepSet(w.transfers, now);
    WipedClean(old(w.staging), wiped, faults.shred);
    AllSwept(w.transfers, now);
    if |wiped| > 0 {
      if faults.commit {
        return Err(CommitFailed), wiped;
      }
      w.transfers := pending;
    }
    return Ok(|wiped|), wiped;
  }

  ghost predicate NoneRaises(staging: Staging, transfers: set<string>, fault: ShredFault) {
    forall tid :: tid in transfers ==> !ShredRaises(staging, tid, fault)
  }

  predicate NoneLeft(staging: Staging, transfers: set<string>) {
    forall key :: key in staging ==> key.0 !in transfers
  }

  lemma WipedClean(staging: Staging, wiped: set<string>, fault: ShredFault)
    requires NoneRaises(staging, wiped, fault)
    ensures NoneLeft(Shred(staging, wiped, fault), wiped)
  {
    forall key | key in Shred(staging, wiped, fault) ensures key.0 !in wiped {
      assert key.0 in wiped ==> ShredRaises(staging, key.0, fault);
    }
  }

  lemma RaisesLater(staging: Staging, done: set<string>, fault: ShredFault, tid: string)
    requires tid !in done
    ensures ShredRaises(Shred(staging, done, fault), tid, fault) <==> ShredRaises(staging, tid, fault)
  {
    if ShredRaises(staging, tid, fault) {
      var key :| key in staging && key.0 == tid && key in fault.stuck;
      assert key in Shred(staging, done, fault);
    }
  }

  // ---- Steps and runs ----

  datatype Step =
    | Create(tid: string, expiresAt: int, now: int, files: seq<FileRow>)
    | Encrypt(tid: string, result: EncryptResult)
    | DefenderPoll(staging: Staging, directories: set<string>, now: int)
    | Cleanup(now: int)
    | Delete(tid: string, now: int)
    | Revoke(tid: string, now: int)
    | Rewrap(blobs: map<string, bytes>)

  /** How the encrypt worker leaves a row it found uploading. */
  datatype EncryptResult =
    | Completed(wrappedKey: bytes, files: seq<FileRow>)
    | Failed(now: int)
    | Stranded                                      // cancelled, or recovery failed too

  function EncryptRow(t: Transfer, result: EncryptResult): Transfer {
    if t.status != Uploading then t
    else match result
      case Completed(wrappedKey, files) => EncryptReady(t, wrappedKey, files)
      case Failed(now) => EncryptInfected(t, now)
      case Stranded => t
  }

  function UpdateRow(rows: Transfers, tid: string, f: Transfer -> Transfer): Transfers {
    if tid in rows then rows[tid := f(rows[tid])] else rows
  }

  function Apply(rows: Transfers, step: Step): Transfers {
    match step
    case Create(tid, expiresAt, now, files) =>
      if tid in rows then rows else rows[tid := NewTransfer(now, expiresAt, files)]
    case Encrypt(tid, result) => UpdateRow(rows, tid, t => EncryptRow(t, result))
    case DefenderPoll(staging, directories, now) => Poll(rows, staging, directories, now)
    case Cleanup(now) => Sweep(rows, now)
    case Delete(tid, now) => UpdateRow(rows, tid, t => DeleteRow(t, now))
    case Revoke(tid, now) => UpdateRow(rows, tid, t => RevokeRow(t, now))
    case Rewrap(blobs) => map tid | tid in rows :: if tid in blobs then RewrapRow(rows[tid], blobs[tid]) else rows[tid]
  }

  function Run(rows: Transfers, steps: seq<Step>): Transfers {
    if steps == [] then rows
    else Apply(Run(rows, steps[..|steps| - 1]), steps[|steps| - 1])
  }

  // ---- What holds throughout ----

  /** Keys exist only where downloads may still be possible or were revoked, always exist
      where they are possible, and the deletion date is set exactly on dead rows. */
  predicate RowInv(t: Transfer) {
    && (t.wrappedKey.Some? ==> t.status in {Ready, Revoked})
    && (t.status == Ready ==> t.wrappedKey.Some?)
    && (t.deletedAt.Some? <==> t.status in {Expired, Deleted})
  }

  predicate Inv(rows: Transfers) {
    forall tid :: tid in rows ==> RowInv(rows[tid])
  }

  lemma StepKeepsInv(rows: Transfers, step: Step)
    requires Inv(rows)
    ensures Inv(Apply(rows, step))
  {
    forall tid | tid in Apply(rows, step) ensures RowInv(Apply(rows, step)[tid]) {
      if tid in rows {
        assert RowInv(rows[tid]);
      }
    }
  }

  lemma {:induction false} CryptoShredInvariant(rows: Transfers, steps: seq<Step>)
    requires Inv(rows)
    ensures Inv(Run(rows, steps))
  {
    if steps != [] {
      CryptoShredInvariant(rows, steps[..|steps| - 1]);
      StepKeepsInv(Run(rows, steps[..|steps| - 1]), steps[|steps| - 1]);
    }
  }

  /** Strictly decreases with every status change. */
  function Rank(s: Status): nat {
    match s
    case Uploading => 3
    case Ready => 2
    case Expired | Infected | Revoked => 1
    case Deleted => 0
  }

  /** One step changes a row only downwards, never drops one, and never touches a deleted
      one; only an uploading row can become ready. */
  lemma StepGoesDown(rows: Transfers, step: Step, tid: string)
    requires Inv(rows) && tid in rows
    ensures tid in Apply(rows, step)
    ensures var before, after := rows[tid], Apply(rows, step)[tid];
            && (after.status != before.status ==> Rank(after.status) < Rank(before.status))
            && (before.status == Deleted ==> after == before)
            && (after.status == Ready ==> before.status in {Uploading, Ready})
            && (before.wrappedKey.None? && after.wrappedKey.Some? ==> before.status == Uploading && step.Encrypt?)
  {
  }

  /** How often the row's status changed during a run. */
  function Changes(rows: Transfers, steps: seq<Step>, tid: string): nat {
    if steps == [] then 0
    else
      var before := Run(rows, steps[..|steps| - 1]);
      var after := Run(rows, steps);
      Changes(rows, steps[..|steps| - 1], tid)
        + if tid in before && tid in after && before[tid].status != after[tid].status then 1 else 0
  }

  /** From creation on, a row's status changes at most three times, and the rank left says
      how many changes can still come. */
  lemma {:induction false} AtMostThreeChanges(rows: Transfers, steps: seq<Step>, tid: string)
    requires Inv(rows)
    ensures Changes(rows, steps, tid) <= 3
    ensures tid in Run(rows, steps) ==> Changes(rows, steps, tid) + Rank(Run(rows, steps)[tid].status) <= 3
    ensures tid in rows ==> tid in Run(rows, steps)
    ensures tid !in Run(rows, steps) ==> Changes(rows, steps, tid) == 0
  {
    if steps != [] {
      var init := steps[..|steps| - 1];
      AtMostThreeChanges(rows, init, tid);
      CryptoShredInvariant(rows, init);
      if tid in Run(rows, init) {
        StepGoesDown(Run(rows, init), steps[|steps| - 1], tid);
      }
    }
  }

  /** A deleted row never changes again, in any field; a row without a key that is past
      uploading never gets one. */
  lemma {:induction false} DeletedIsTerminal(rows: Transfers, steps: seq<Step>, tid: string)
    requires Inv(rows) && tid in rows
    ensures tid in Run(rows, steps)
    ensures rows[tid].status == Deleted ==> Run(rows, steps)[tid] == rows[tid]
    ensures rows[tid].status != Uploading ==> Run(rows, steps)[tid].status != Uploading
    ensures rows[tid].status != Uploading && rows[tid].wrappedKey.None? ==> Run(rows, steps)[tid].wrappedKey.None?
  {
    if steps != [] {
      var init := steps[..|steps| - 1];
      DeletedIsTerminal(rows, init, tid);
      CryptoShredInvariant(rows, init);
      StepGoesDown(Run(rows, init), steps[|steps| - 1], tid);
    }
  }

  /** The sweep is what shreds on expiry, and it looks at ready rows only. A key survives its
      expiry date through a sweep exactly on rows that were revoked first. */
  lemma SweepShredsAllButRevoked(rows: Transfers, now: int, tid: string)
    requires Inv(rows) && tid in rows && rows[tid].expiresAt < now
    ensures Sweep(rows, now)[tid].wrappedKey.Some? <==> rows[tid].status == Revoked && rows[tid].wrappedKey.Some?
  {
  }

  /** A revoked transfer's key stays through any number of sweeps until someone deletes it. */
  lemma {:induction false} RevokedKeySurvivesSweeps(rows: Transfers, steps: seq<Step>, tid: string)
    requires Inv(rows) && tid in rows && rows[tid].status == Revoked && rows[tid].wrappedKey.Some?
    requires forall s :: s in steps ==> !(s.Delete? && s.tid == tid)
    ensures tid in Run(rows, steps)
    ensures Run(rows, steps)[tid].status == Revoked && Run(rows, steps)[tid].wrappedKey.Some?
  {
    if steps != [] {
      RevokedKeySurvivesSweeps(rows, steps[..|steps| - 1], tid);
    }
  }
}
