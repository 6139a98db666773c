/** The whole service: one set of stores, every handler, worker and operator action that
    changes them, in any order and any number, with any failures. A download after any run
    returns exactly the bytes kept from the PATCH bodies. */
module Service {
  import opened Bytes
  import opened Storage
  import opened StreamCipher
  import opened Model
  import opened Record
  import opened ServiceState
  import opened History
  import Download
  import EncryptJob
  import Envelope
  import Handlers
  import KeyWrap
  import Lifecycle
  import Rotation
  import Tus

  /** What the actions of a run may bring from outside: proper ids, good random bytes, and keys
      of the run's key space. */
  ghost predicate Admissible(ids: Ids, space: KeySpace, a: Action) {
    match a
    case Create(tid, _, requested) =>
      IsId(ids, tid) && forall i, j :: 0 <= i < j < |requested| ==> requested[i].id != requested[j].id
    case Job(tid, rnd, _) => IsId(ids, tid) && EncryptJob.GoodRandom(rnd) && rnd.fileKey in space.fileKeys
    case RewrapChunk(limit) => limit > 0
    case OpenWindow(key) => key in space.masters
    case _ => true
  }

  /** The rows a query selected, in some order. */
  method Fetch(selected: set<string>) returns (rows: seq<string>)
    ensures forall tid :: tid in rows <==> tid in selected
    ensures forall i, j :: 0 <= i < j < |rows| ==> rows[i] != rows[j]
  {
    rows := [];
    var left := selected;
    while left != {}
      invariant left <= selected
      invariant forall tid :: tid in rows <==> tid in selected - left
      invariant forall i, j :: 0 <= i < j < |rows| ==> rows[i] != rows[j]
      decreases left
    {
      var tid :| tid in left;
      assert tid !in rows;
      rows, left := rows + [tid], left - {tid};
    }
  }

  /** A creation, in the terms of the invariant. */
  method RunCreate(w: World, tid: string, now: int, expiresAt: int, requested: seq<Handlers.FileRequest>)
    requires tid !in w.transfers
    requires forall i, j :: 0 <= i < j < |requested| ==> requested[i].id != requested[j].id
    modifies w`transfers
    ensures tid in w.transfers && w.transfers == old(w.transfers)[tid := w.transfers[tid]]
    ensures w.transfers[tid].status == Uploading && w.transfers[tid].expiresAt == expiresAt
    ensures w.transfers[tid].wrappedKey.None? && w.transfers[tid].deletedAt.None?
    ensures DistinctFiles(w.transfers[tid].files) && AsRequested(w.transfers[tid].files, requested)
  {
    Handlers.CreateTransfer(w, tid, now, expiresAt, requested);
  }

  /** One PATCH, in the terms of the invariant. */
  method RunPatch(w: World, tid: string, fid: string, offset: int, body: bytes) returns (result: Tus.PatchResult)
    requires Tus.UploadInvariant(w.transfers, w.staging)
    modifies w`staging, w`queue
    ensures PatchRan(w.transfers, old(w.staging), w.staging, tid, fid, offset, body, result)
  {
    result := Tus.HandlePatch(w, tid, fid, offset, body);
  }

  /** One job, in the terms of the invariant. */
  method RunJob(s: Suite, c: KeyWrap.Cipher, w: World, tid: string, master: bytes, rnd: EncryptJob.Random,
      faults: EncryptJob.Faults, now: int)
    returns (outcome: EncryptJob.Outcome)
    requires PlainId(tid) && EncryptJob.GoodRandom(rnd)
    requires tid in w.transfers ==> DistinctFiles(w.transfers[tid].files)
    modifies w
    ensures JobRan(s, c, master, old(StoresOf(w)), StoresOf(w), tid, rnd, faults, outcome)
    ensures EncryptJob.Faultless(faults) && old(ReadyToComplete(w, tid)) && |master| == KEY_LEN ==>
              outcome.Processed? && outcome.result.Completed?
  {
    outcome := EncryptJob.ProcessEncryptJob(s, c, w, tid, master, rnd, faults, now);
  }

  /** Deletes, revokes, polls and sweeps, in the same terms: a step of the life cycle, and what the
      record says of it. */
  method RunDelete(w: World, tid: string, now: int, stuck: set<string>, commitFails: bool) returns (e: Entry)
    modifies w`transfers, w`objects
    ensures e.action == Delete(tid, stuck, commitFails) && e.reply.Coded? && e.reply.code in {204, 404, 500}
    ensures if e.reply == Coded(500) then
              && w.transfers == old(w.transfers) && tid in w.transfers
              && w.objects == DeleteTransfer(old(w.objects), tid, stuck)
            else
              && w.transfers == Lifecycle.Apply(old(w.transfers), Lifecycle.Delete(tid, now))
              && (w.objects == old(w.objects) ||
                  (tid in w.transfers && w.objects == DeleteTransfer(old(w.objects), tid, stuck)))
    ensures Follows(old(w.transfers), w.transfers, now, e)
  {
    var code := Handlers.DeleteHandler(w, tid, now, stuck, commitFails);
    e := Entry(Delete(tid, stuck, commitFails), Coded(code));
  }

  lemma DeleteKeepsInv(p: Setup, v: State, tid: string, stuck: set<string>, commitFails: bool, e: Entry,
      transfers: Transfers, objects: Objects)
    requires Inv(p, v) && e.action == Delete(tid, stuck, commitFails) && e.reply.Coded?
    requires if e.reply == Coded(500) then
               transfers == v.transfers && tid in transfers && objects == DeleteTransfer(v.objects, tid, stuck)
             else
               && transfers == Lifecycle.Apply(v.transfers, Lifecycle.Delete(tid, v.clock))
               && (objects == v.objects || (tid in transfers && objects == DeleteTransfer(v.objects, tid, stuck)))
    ensures Inv(p, v.(stores := v.stores.(transfers := transfers, objects := objects), log := v.log + [e]))
  {
    if e.reply == Coded(500) {
      FailedDeleteKeepsInv(p, v, tid, stuck, commitFails);
    } else {
      DeclineKeepsInv(p, v, Lifecycle.Delete(tid, v.clock), objects, e);
    }
  }

  method RunRevoke(w: World, tid: string, now: int) returns (e: Entry)
    modifies w`transfers
    ensures e.action == Revoke(tid) && e.reply.Coded? && e.reply.code in {204, 404}
    ensures w.transfers == Lifecycle.Apply(old(w.transfers), Lifecycle.Revoke(tid, now))
    ensures Follows(old(w.transfers), w.transfers, now, e)
  {
    var code := Handlers.RevokeHandler(w, tid, now);
    e := Entry(Revoke(tid), Coded(code));
  }

  method RunPoll(w: World, directories: set<string>, now: int) returns (e: Entry)
    modifies w`transfers
    ensures e.action == Poll(directories)
    ensures e.reply == Polled(Handlers.QuarantinedSet(old(w.transfers), w.staging, directories, now))
    ensures w.transfers == Lifecycle.Apply(old(w.transfers), Lifecycle.DefenderPoll(w.staging, directories, now))
    ensures Follows(old(w.transfers), w.transfers, now, e)
  {
    var candidates := Fetch(set tid | tid in w.transfers && Handlers.Candidate(w.transfers[tid], now));
    var flipped := Handlers.RunDefenderPollOnce(w, candidates, directories, now);
    e := Entry(Poll(directories), Polled(flipped));
  }

  /** Nothing ready is past its expiry date. */
  ghost predicate NoneOverdue(transfers: Transfers, now: int) {
    forall tid :: tid in transfers && transfers[tid].status == Ready ==> now <= transfers[tid].expiresAt
  }

  method RunSweep(w: World, faults: Lifecycle.SweepFaults, now: int) returns (wiped: set<string>, committed: bool)
    modifies w`transfers, w`staging, w`objects
    ensures wiped <= Lifecycle.SweepSet(old(w.transfers), now)
    ensures committed <==> !old(Lifecycle.SweepFails(w.transfers, w.staging, now, faults))
    ensures committed ==> NoneOverdue(w.transfers, now)
    ensures w.transfers == if committed then Lifecycle.Sweep(old(w.transfers), now) else old(w.transfers)
    ensures w.staging == Shred(old(w.staging), wiped, faults.shred)
    ensures w.objects == Lifecycle.DeleteSome(old(w.objects), wiped, faults.stuck)
    ensures Follows(old(w.transfers), w.transfers, now, Entry(Sweep(faults), Swept(wiped, committed)))
  {
    var selected := Fetch(Lifecycle.SweepSet(w.transfers, now));
    var r;
    r, wiped := Lifecycle.RunCleanupOnce(w, now, selected, faults);
    committed := r.Ok?;
  }

  lemma JobRecord(p: Setup, v: State, stores: Stores, master: bytes, tid: string, rnd: EncryptJob.Random,
      faults: EncryptJob.Faults, outcome: EncryptJob.Outcome)
    requires JobRan(p.s, p.c, master, v.stores, stores, tid, rnd, faults, outcome)
    requires RowsAsRecorded(v.transfers, v.clock, v.log)
    ensures RowsAsRecorded(stores.transfers, v.clock, v.log + [Entry(Job(tid, rnd, faults), Worked(outcome))])
  {
    var e := Entry(Job(tid, rnd, faults), Worked(outcome));
    if outcome.Processed? {
      JobRows(v.transfers, tid, outcome.result);
      FollowsRecord(v.transfers, stores.transfers, v.clock, v.clock, v.log, e);
    } else {
      NoNewsKeeps(v.transfers, v.transfers, v.clock, v.clock, v.log, e);
    }
  }

  /** The transfer is waiting for a job, with every file staged in full. */
  ghost predicate ReadyToComplete(w: World, tid: string)
    reads w
  {
    && tid !in w.locks && tid in w.transfers && w.transfers[tid].status == Uploading
    && forall f :: f in w.transfers[tid].files ==>
         (tid, f.id) in w.staging && |w.staging[(tid, f.id)]| == f.size
  }

  ghost function StoresOf(w: World): Stores
    reads w
  {
    Stores(w.transfers, w.staging, w.objects, w.audit)
  }

  /** One chunk of the rewrap loop: select, rewrap, write back, and move the cursor. */
  method RewrapTable(c: KeyWrap.Cipher, ids: Ids, transfers: Transfers, keys: Keys, limit: nat)
    returns (transfers': Transfers, keys': Keys)
    requires limit > 0 && keys.previous.Some? && forall tid :: tid in transfers ==> IsId(ids, tid)
    ensures var o := NextChunk(c, ids, transfers, keys, limit);
            transfers' == WriteBack(ids, transfers, o.rows) && keys' == KeysAfterChunk(keys, o.lastId, o.finished)
  {
    var column, lastId, ended := Rotation.RunChunk(
      c, keys.current, keys.previous.value, Column(ids, transfers), keys.lastId, false, map[], limit);
    transfers', keys' := WriteBack(ids, transfers, column), KeysAfterChunk(keys, lastId, ended);
  }

  /** The same, in the terms of the invariant. */
  method RewrapRows(ghost p: Setup, ghost v: State, ghost e: Entry, c: KeyWrap.Cipher, ids: Ids,
      transfers: Transfers, keys: Keys, limit: nat)
    returns (transfers': Transfers, keys': Keys)
    requires Inv(p, v) && Quiet(e) && c == p.c && ids == p.ids && transfers == v.transfers && keys == v.keys
    requires limit > 0 && keys.previous.Some?
    ensures Inv(p, v.(stores := v.stores.(transfers := transfers'), keys := keys', log := v.log + [e]))
    ensures transfers'.Keys == transfers.Keys
    ensures forall tid :: tid in transfers ==>
              transfers'[tid] == transfers[tid].(wrappedKey := transfers'[tid].wrappedKey)
  {
    transfers', keys' := RewrapTable(c, ids, transfers, keys, limit);
    ChunkKeepsInv(p, v, limit, e);
    ChunkShape(c, ids, transfers, keys, limit);
    ChunkRows(ids, transfers, NextChunk(c, ids, transfers, keys, limit).rows);
  }

  /** The log after one more action. */
  ghost predicate Recorded(before: Log, after: Log, a: Action) {
    |after| == |before| + 1 && after[..|before|] == before && after[|before|].action == a
  }

  ghost predicate RecordedAll(before: Log, after: Log, actions: seq<Action>) {
    && |after| == |before| + |actions| && after[..|before|] == before
    && forall i :: 0 <= i < |actions| ==> after[|before| + i].action == actions[i]
  }

  lemma RecordedOneMore(first: Log, before: Log, after: Log, actions: seq<Action>, i: nat)
    requires i < |actions| && RecordedAll(first, before, actions[..i]) && Recorded(before, after, actions[i])
    ensures RecordedAll(first, after, actions[..i + 1])
  {
    assert forall j :: 0 <= j < |before| ==> after[j] == after[..|before|][j];
    assert after[..|first|] == before[..|first|];
  }

  class Service {
    const s: Suite
    const c: KeyWrap.Cipher
    const ids: Ids
    const w: World
    ghost const space: KeySpace

    var clock: int
    var keys: Keys
    var log: Log
    ghost var origin: map<string, bytes>

    ghost function Parameters(): Setup {
      Setup(s, c, ids, space)
    }

    ghost function View(): State
      reads this, w
    {
      State(StoresOf(w), clock, keys, origin, log)
    }

    ghost predicate Valid()
      reads this, w
    {
      Inv(Parameters(), View()) && RowsAsRecorded(w.transfers, clock, log)
    }

    constructor (s: Suite, c: KeyWrap.Cipher, ids: Ids, ghost space: KeySpace, master: bytes, clock: int)
      requires Separate(c, space) && master in space.masters
      ensures Valid() && log == [] && fresh(w) && Parameters() == Setup(s, c, ids, space) && this.clock == clock
    {
      this.s, this.c, this.ids, this.space := s, c, ids, space;
      this.clock, keys, log, origin := clock, Keys(master, None, master, None, false, false), [], map[];
      w := new World(map[]);
    }

    // ---- The actions ----

    method DoCreate(tid: string, expiresAt: int, requested: seq<Handlers.FileRequest>)
      requires Valid() && Admissible(ids, space, Create(tid, expiresAt, requested))
      modifies this, w
      ensures Valid() && clock == old(clock) && Recorded(old(log), log, Create(tid, expiresAt, requested))
    {
      ghost var v := View();
      var e := Entry(Create(tid, expiresAt, requested), Done);
      log := log + [e];
      if tid in w.transfers {
        QuietKeepsInv(Parameters(), v, e, 0);
        NoNewsKeeps(v.transfers, v.transfers, clock, clock, v.log, e);
        return;
      }
      RunCreate(w, tid, clock, expiresAt, requested);
      CreateRecord(v.transfers, tid, w.transfers[tid], clock, v.log, e);
      CreateKeepsInv(Parameters(), v, tid, w.transfers[tid], e);
      assert View() == v.(stores := v.stores.(transfers := v.transfers[tid := w.transfers[tid]]), log := v.log + [e]);
    }

    method DoPatch(tid: string, fid: string, offset: int, body: bytes)
      requires Valid()
      modifies this, w
      ensures Valid() && clock == old(clock) && Recorded(old(log), log, Patch(tid, fid, offset, body))
    {
      ghost var v := View();
      var result := RunPatch(w, tid, fid, offset, body);
      var e := Entry(Patch(tid, fid, offset, body), Answered(result));
      log := log + [e];
      PatchKeepsInv(Parameters(), v, tid, fid, offset, body, result, w.staging);
      assert View() == v.(stores := v.stores.(staging := w.staging), log := v.log + [e]);
      NoNewsKeeps(v.transfers, v.transfers, clock, clock, v.log, e);
    }

    method DoQuarantine(tid: string, fid: string)
      requires Valid()
      modifies this, w
      ensures Valid() && clock == old(clock) && Recorded(old(log), log, Quarantine(tid, fid))
    {
      QuarantineKeepsInv(Parameters(), View(), tid, fid);
      NoNewsKeeps(w.transfers, w.transfers, clock, clock, log, Entry(Quarantine(tid, fid), Done));
      w.staging := w.staging - {(tid, fid)};
      log := log + [Entry(Quarantine(tid, fid), Done)];
    }

    method DoJob(tid: string, rnd: EncryptJob.Random, faults: EncryptJob.Faults)
      requires Valid() && Admissible(ids, space, Job(tid, rnd, faults))
      modifies this, w
      ensures Valid() && clock == old(clock) && Recorded(old(log), log, Job(tid, rnd, faults))
      ensures EncryptJob.Faultless(faults) && old(ReadyToComplete(w, tid)) ==> Completes(log[|old(log)|], tid)
    {
      ghost var v := View();
      var outcome := RunJob(s, c, w, tid, keys.worker, rnd, faults, clock);
      log, origin := log + [Entry(Job(tid, rnd, faults), Worked(outcome))], OriginAfter(origin, tid, rnd, outcome);
      JobKeepsInv(Parameters(), v, View().stores, tid, rnd, faults, outcome);
      JobRecord(Parameters(), v, View().stores, keys.worker, tid, rnd, faults, outcome);
    }

    /** A job in which nothing fails, on a transfer whose files are staged in full. */
    method CompleteStaged(tid: string, rnd: EncryptJob.Random, faults: EncryptJob.Faults)
      requires Valid() && Admissible(ids, space, Job(tid, rnd, faults))
      requires EncryptJob.Faultless(faults) && tid !in w.locks
      requires StatusOf(log, tid) == Some(Uploading) && AllStaged(log, tid)
      modifies this, w
      ensures Valid() && clock == old(clock) && |log| == |old(log)| + 1 && log[..|old(log)|] == old(log)
      ensures Completes(log[|old(log)|], tid)
    {
      StagedIsReady(Parameters(), View(), tid);
      DoJob(tid, rnd, faults);
    }

    method DoDelete(tid: string, stuck: set<string>, commitFails: bool)
      requires Valid()
      modifies this, w
      ensures Valid() && clock == old(clock) && Recorded(old(log), log, Delete(tid, stuck, commitFails))
    {
      ghost var v := View();
      var e := RunDelete(w, tid, clock, stuck, commitFails);
      log := log + [e];
      assert View() == v.(stores := v.stores.(transfers := w.transfers, objects := w.objects), log := v.log + [e]);
      FollowsRecord(v.transfers, w.transfers, clock, clock, v.log, e);
      DeleteKeepsInv(Parameters(), v, tid, stuck, commitFails, e, w.transfers, w.objects);
    }

    method DoRevoke(tid: string)
      requires Valid()
      modifies this, w
      ensures Valid() && clock == old(clock) && Recorded(old(log), log, Revoke(tid))
    {
      ghost var v := View();
      var e := RunRevoke(w, tid, clock);
      log := log + [e];
      FollowsRecord(v.transfers, w.transfers, clock, clock, v.log, e);
      DeclineKeepsInv(Parameters(), v, Lifecycle.Revoke(tid, clock), w.objects, e);
    }

    method DoPoll(directories: set<string>)
      requires Valid()
      modifies this, w
      ensures Valid() && clock == old(clock) && Recorded(old(log), log, Poll(directories))
      ensures log[|old(log)|].reply
           == Polled(Handlers.QuarantinedSet(old(w.transfers), w.staging, directories, clock))
    {
      ghost var v := View();
      var e := RunPoll(w, directories, clock);
      log := log + [e];
      FollowsRecord(v.transfers, w.transfers, clock, clock, v.log, e);
      DeclineKeepsInv(Parameters(), v, Lifecycle.DefenderPoll(w.staging, directories, clock), w.objects, e);
    }

    method DoSweep(faults: Lifecycle.SweepFaults)
      requires Valid()
      modifies this, w
      ensures Valid() && clock == old(clock) && Recorded(old(log), log, Sweep(faults))
      ensures !old(Lifecycle.SweepFails(w.transfers, w.staging, clock, faults)) ==> NoneOverdue(w.transfers, clock)
    {
      ghost var v := View();
      var wiped, committed := RunSweep(w, faults, clock);
      log := log + [Entry(Sweep(faults), Swept(wiped, committed))];
      FollowsRecord(v.transfers, w.transfers, clock, clock, v.log, Entry(Sweep(faults), Swept(wiped, committed)));
      SweepKeepsInv(Parameters(), v, faults, wiped, committed, w.transfers);
    }

    /** One chunk of the online rewrap; refused with 409 outside a rotation window. */
    method DoRewrapChunk(limit: nat)
      requires Valid() && limit > 0
      modifies this, w
      ensures Valid() && clock == old(clock) && Recorded(old(log), log, RewrapChunk(limit))
    {
      ghost var v := View();
      var e := Entry(RewrapChunk(limit), Done);
      log := log + [e];
      if keys.previous.None? {
        QuietKeepsInv(Parameters(), v, e, 0);
        NoNewsKeeps(v.transfers, v.transfers, clock, clock, v.log, e);
        return;
      }
      w.transfers, keys := RewrapRows(Parameters(), v, e, c, ids, w.transfers, keys, limit);
      NoNewsKeeps(v.transfers, w.transfers, clock, clock, v.log, e);
    }

    /** The operator's part of a rotation: the API gets a new key next to the old one, unless a
        window is open; the worker is restarted with it; and the old key is removed, if that is
        safe. */
    method ChangeKeys(a: Action)
      requires Valid() && Admissible(ids, space, a)
      requires a.OpenWindow? || a.RestartWorker? || a.CloseWindow? || a.RewrapRestart?
      modifies this
      ensures Valid() && clock == old(clock) && Recorded(old(log), log, a)
      ensures a.OpenWindow? ==>
                if old(keys).previous.None? && a.key != old(keys).current
                then
                  && keys.current == a.key && keys.previous == Some(old(keys).current)
                  && keys.worker == old(keys).worker
                else keys == old(keys)
      ensures a.RestartWorker? ==> keys == old(keys).(worker := old(keys).current)
      ensures a.CloseWindow? ==>
                keys == if old(keys).previous.Some? && SafeToClose(c, w.transfers, old(keys))
                        then old(keys).(previous := None) else old(keys)
    {
      ghost var v := View();
      var e := Entry(a, Done);
      log := log + [e];
      match a {
        case OpenWindow(key) =>
          if keys.previous.None? && key != keys.current {
            keys := Opened(keys, key);
          }
        case RestartWorker =>
          keys := keys.(worker := keys.current);
        case CloseWindow =>
          if keys.previous.Some? && SafeToClose(c, w.transfers, keys) {
            keys := keys.(previous := None);
          }
        case RewrapRestart =>
          keys := keys.(lastId := None);
      }
      NoNewsKeeps(w.transfers, w.transfers, clock, clock, v.log, e);
      if keys == v.keys {
        QuietKeepsInv(Parameters(), v, e, 0);
      } else {
        KeysKeepInv(Parameters(), v, keys, e);
      }
    }

    method Pass(d: nat)
      requires Valid()
      modifies this
      ensures Valid() && clock == old(clock) + d && Recorded(old(log), log, Tick(d))
    {
      QuietKeepsInv(Parameters(), View(), Entry(Tick(d), Done), d);
      NoNewsKeeps(w.transfers, w.transfers, clock, clock + d, log, Entry(Tick(d), Done));
      clock := clock + d;
      log := log + [Entry(Tick(d), Done)];
    }

    method ExpireLock(tid: string)
      requires Valid()
      modifies this, w
      ensures Valid() && clock == old(clock) && Recorded(old(log), log, LockExpiry(tid))
      ensures w.locks == old(w.locks) - {tid}
    {
      QuietKeepsInv(Parameters(), View(), Entry(LockExpiry(tid), Done), 0);
      NoNewsKeeps(w.transfers, w.transfers, clock, clock, log, Entry(LockExpiry(tid), Done));
      w.locks := w.locks - {tid};
      log := log + [Entry(LockExpiry(tid), Done)];
    }

    method Step(a: Action)
      requires Valid() && Admissible(ids, space, a)
      modifies this, w
      ensures Valid() && clock == old(clock) + (if a.Tick? then a.d else 0) && Recorded(old(log), log, a)
    {
      match a {
        case Tick(d) => Pass(d);
        case Create(tid, expiresAt, requested) => DoCreate(tid, expiresAt, requested);
        case Patch(tid, fid, offset, body) => DoPatch(tid, fid, offset, body);
        case Quarantine(tid, fid) => DoQuarantine(tid, fid);
        case Job(tid, rnd, faults) => DoJob(tid, rnd, faults);
        case LockExpiry(tid) => ExpireLock(tid);
        case Delete(tid, stuck, commitFails) => DoDelete(tid, stuck, commitFails);
        case Revoke(tid) => DoRevoke(tid);
        case Poll(directories) => DoPoll(directories);
        case Sweep(faults) => DoSweep(faults);
        case RewrapChunk(limit) => DoRewrapChunk(limit);
        case OpenWindow(_) | RestartWorker | CloseWindow | RewrapRestart => ChangeKeys(a);
      }
    }

    /** Any run: every sequence of actions keeps the invariant, and is what the log records. */
    method Run(actions: seq<Action>)
      requires Valid() && forall i :: 0 <= i < |actions| ==> Admissible(ids, space, actions[i])
      modifies this, w
      ensures Valid() && RecordedAll(old(log), log, actions) && clock == old(clock) + Elapsed(actions)
    {
      ghost var first, began := log, clock;
      assert actions[..0] == [];
      for i := 0 to |actions|
        invariant Valid() && RecordedAll(first, log, actions[..i]) && clock == began + Elapsed(actions[..i])
      {
        ghost var before := log;
        Step(actions[i]);
        assert actions[..i + 1][..i] == actions[..i];
        RecordedOneMore(first, before, log, actions, i);
      }
      assert actions[..|actions|] == actions;
    }

    /** A file of a transfer that is ready and not expired arrives byte for byte. */
    method Serve(tid: string, fid: string, slices: bytes -> seq<bytes>)
      returns (r: Result<Download.Response, Download.DownloadError>)
      requires Valid() && forall b :: Flatten(slices(b)) == b
      ensures Delivers(log, clock, tid, fid, r)
    {
      if tid in w.transfers {
        assert RowAsRecorded(w.transfers[tid], tid, clock, log);
        FindsRequested(w.transfers[tid].files, CreationOf(log, tid).value.requested, fid);
      }
      if Download.LookupRefusal(w.transfers, tid, fid, clock).None? {
        ServedIsRecoverable(Parameters(), View(), tid, FindFile(w.transfers[tid].files, fid).value);
        ServedPieces(Parameters(), View(), tid, fid);
      }
      r := Download.DownloadFile(s, c, w, tid, fid, keys.current, keys.previous, clock, slices);
    }
  }

  /** Going by the record, every file requested for the transfer is staged in full. */
  ghost predicate AllStaged(log: Log, tid: string) {
    CreationOf(log, tid).Some? && forall f :: f in CreationOf(log, tid).value.requested ==>
      f.size > 0 && |Staged(log, tid, f.id, f.size)| == f.size
  }

  lemma StagedIsReady(p: Setup, v: State, tid: string)
    requires Inv(p, v) && RowsAsRecorded(v.transfers, v.clock, v.log)
    requires StatusOf(v.log, tid) == Some(Uploading) && AllStaged(v.log, tid)
    ensures tid in v.transfers && v.transfers[tid].status == Uploading
    ensures forall f :: f in v.transfers[tid].files ==>
              (tid, f.id) in v.staging && |v.staging[(tid, f.id)]| == f.size
  {
    var t, requested := v.transfers[tid], CreationOf(v.log, tid).value.requested;
    assert RowAsRecorded(t, tid, v.clock, v.log);
    forall f | f in t.files ensures (tid, f.id) in v.staging && |v.staging[(tid, f.id)]| == f.size {
      var i :| 0 <= i < |t.files| && t.files[i] == f;
      assert requested[i] in requested;
      assert StagedContent(v.staging, (tid, f.id)) == Staged(v.log, tid, f.id, f.size);
    }
  }

  /** The other half of the promise: after any run, if by the record a transfer is uploading with
      every file staged in full, its lock is free and nothing fails, then one job completes it,
      and a download before its expiry date delivers what was staged. */
  method CompleteThenServe(service: Service, tid: string, fid: string, rnd: EncryptJob.Random,
      faults: EncryptJob.Faults, slices: bytes -> seq<bytes>)
    returns (r: Result<Download.Response, Download.DownloadError>)
    requires service.Valid() && Admissible(service.ids, service.space, Job(tid, rnd, faults))
    requires EncryptJob.Faultless(faults) && tid !in service.w.locks && forall b :: Flatten(slices(b)) == b
    requires StatusOf(service.log, tid) == Some(Uploading) && AllStaged(service.log, tid)
    requires service.clock < CreationOf(service.log, tid).value.expiresAt
    requires DeclaredSize(CreationOf(service.log, tid).value.requested, fid).Some?
    modifies service, service.w
    ensures service.Valid()
    ensures var size := DeclaredSize(old(CreationOf(service.log, tid)).value.requested, fid).value;
            && r.Ok? && r.value.ended == Ok(()) && r.value.contentLength == size
            && Flatten(r.value.body) == old(Staged(service.log, tid, fid, size))
  {
    ghost var before := service.log;
    service.CompleteStaged(tid, rnd, faults);
    r := service.Serve(tid, fid, slices);
    JustCompleted(before, service.log, service.clock, tid, fid, r);
  }

  lemma JustCompleted(log: Log, log': Log, clock: int, tid: string, fid: string,
      r: Result<Download.Response, Download.DownloadError>)
    requires |log'| == |log| + 1 && log'[..|log|] == log
    requires Completes(log'[|log|], tid) && Delivers(log', clock, tid, fid, r)
    requires CreationOf(log, tid).Some? && clock < CreationOf(log, tid).value.expiresAt
    requires DeclaredSize(CreationOf(log, tid).value.requested, fid).Some?
    ensures var size := DeclaredSize(CreationOf(log, tid).value.requested, fid).value;
            && r.Ok? && r.value.ended == Ok(()) && r.value.contentLength == size
            && Flatten(r.value.body) == Staged(log, tid, fid, size)
  {
    var e := log'[|log|];
    assert log' == log + [e];
    OneMoreStatus(log, e, tid);
    OneMore(log, e, tid);
  }

  /** What a download owes the client, going by the record alone. Only a ready transfer is served,
      and only before the expiry date it was created with; from then on it is gone. Of the files
      requested at its creation, one whose object a delete without a commit has removed answers
      with an error; every other arrives whole, with its declared size announced: what was
      staged for it when the worker completed the transfer. */
  ghost predicate Delivers(log: Log, clock: int, tid: string, fid: string,
      r: Result<Download.Response, Download.DownloadError>)
  {
    if StatusOf(log, tid) != Some(Ready) || CreationOf(log, tid).None? then r == Err(Download.NotFound)
    else if CreationOf(log, tid).value.expiresAt <= clock then r == Err(Download.Gone)
    else
      match DeclaredSize(CreationOf(log, tid).value.requested, fid)
      case None => r == Err(Download.NotFound)
      case Some(size) =>
        if Lost(log, tid, fid) then r == Err(Download.ObjectMissing)
        else
          && r.Ok? && r.value.ended == Ok(()) && Flatten(r.value.body) == Kept(log, tid, fid, size)
          && r.value.contentLength == |Flatten(r.value.body)| == size
          && MadeOfPieces(log, tid, fid, size, Flatten(r.value.body))
  }

  /** The content is what was staged at a completing job: pieces of PATCH bodies in order, unless
      an earlier job's shred had overwritten staged bytes and left them there. */
  ghost predicate MadeOfPieces(log: Log, tid: string, fid: string, size: nat, content: bytes) {
    exists n :: 0 <= n < |log| && Completes(log[n], tid)
      && content == Staged(log[..n], tid, fid, size)
      && (!Scrambled(log[..n], tid, fid, size) ==> content == Flatten(Pieces(log[..n], tid, fid, size)))
  }

  lemma ServedPieces(p: Setup, v: State, tid: string, fid: string)
    requires Inv(p, v)
    requires tid in v.transfers && Served(v.transfers[tid], v.clock) && FindFile(v.transfers[tid].files, fid).Some?
    ensures var size := FindFile(v.transfers[tid].files, fid).value.size;
            MadeOfPieces(v.log, tid, fid, size, Kept(v.log, tid, fid, size))
  {
    var size := FindFile(v.transfers[tid].files, fid).value.size;
    var n := KeptAt(v.log, tid, fid, size);
    if !Scrambled(v.log[..n], tid, fid, size) {
      StagedIsPieces(v.log[..n], tid, fid, size);
    }
  }

  /** From an empty service, through any run of creations, PATCH requests, jobs, deletes,
      revokes, polls, sweeps, key rotations and failures, to a download with the store slicing
      the object in any way: every file of every transfer that is ready and not expired is
      delivered, unless a delete has removed its object and could not commit. The hypothesis on
      keys is that no wrapped key opens under two of the master keys to different file keys. */
  method AnyRunThenDownload(s: Suite, c: KeyWrap.Cipher, ids: Ids, ghost space: KeySpace, master: bytes, start: int,
      actions: seq<Action>, tid: string, fid: string, slices: bytes -> seq<bytes>)
    returns (service: Service, r: Result<Download.Response, Download.DownloadError>)
    requires Separate(c, space) && master in space.masters
    requires forall i :: 0 <= i < |actions| ==> Admissible(ids, space, actions[i])
    requires forall b :: Flatten(slices(b)) == b
    ensures RecordedAll([], service.log, actions)
    ensures Delivers(service.log, start + Elapsed(actions), tid, fid, r)
    ensures StatusOf(service.log, tid) == Some(Expired) ==>
              CreationOf(service.log, tid).Some?
                && CreationOf(service.log, tid).value.expiresAt < start + Elapsed(actions)
  {
    service := new Service(s, c, ids, space, master, start);
    service.Run(actions);
    r := service.Serve(tid, fid, slices);
    assert tid in service.w.transfers ==>
             RowAsRecorded(service.w.transfers[tid], tid, service.clock, service.log);
  }

  /** After any run, exactly which plaintext is still staged for transfers past `uploading`: with
      the worker's verdict in the audit log, what a shred could not unlink; without it,
      everything that was staged when a delete, a revoke or the poll took the transfer out of
      service. No later action removes that but the scanner. */
  method AnyRunLeavesPlaintext(s: Suite, c: KeyWrap.Cipher, ids: Ids, ghost space: KeySpace, master: bytes, start: int,
      actions: seq<Action>)
    returns (service: Service)
    requires Separate(c, space) && master in space.masters
    requires forall i :: 0 <= i < |actions| ==> Admissible(ids, space, actions[i])
    ensures RecordedAll([], service.log, actions)
    ensures PlaintextAsRecorded(StoresOf(service.w), service.log)
  {
    service := new Service(s, c, ids, space, master, start);
    service.Run(actions);
    PlaintextLeft(service.Parameters(), service.View());
  }

  /** The rewrap endpoint does not look at the worker. A rewrap that finds nothing to do ends; the
      worker, not restarted yet, then completes a transfer under the old key; the download works
      while the window is open, and cannot open the key once the old one has been removed. */
  method LostToAnEarlyRewrap(s: Suite, c: KeyWrap.Cipher, ids: Ids, w: World, tid: string, fid: string,
      oldKey: bytes, newKey: bytes, rnd: EncryptJob.Random, faults: EncryptJob.Faults, now: int, limit: nat,
      slices: bytes -> seq<bytes>)
    returns (ended: bool, outcome: EncryptJob.Outcome,
             during: Result<Download.Response, Download.DownloadError>,
             after: Result<Download.Response, Download.DownloadError>)
    requires |oldKey| == KEY_LEN && |newKey| == KEY_LEN && limit > 0 && forall b :: Flatten(slices(b)) == b
    requires forall t :: t in w.transfers ==> IsId(ids, t) && w.transfers[t].wrappedKey.None?
    requires tid in w.transfers && w.transfers[tid].status == Uploading && now < w.transfers[tid].expiresAt
    requires DistinctFiles(w.transfers[tid].files) && FindFile(w.transfers[tid].files, fid).Some?
    requires faults.lock.Answered? && tid !in w.locks && !faults.lookup && !faults.query
    requires EncryptJob.GoodRandom(rnd) && EncryptJob.Succeeds(w.staging, tid, w.transfers[tid].files, oldKey, faults)
    requires Envelope.ForeignTo(c, newKey, KeyWrap.Wrap(c, oldKey, rnd.fileKey))
    modifies w
    ensures ended && outcome.Processed? && outcome.result.Completed?
    ensures (tid, fid) in old(w.staging) && during.Ok? && during.value.ended == Ok(())
    ensures Flatten(during.value.body) == old(w.staging)[(tid, fid)]
    ensures after == Err(Download.KeyError(Envelope.UnwrapFailed))
  {
    ghost var staging, before := w.staging, w.transfers[tid].files;
    ended := RewrapNothing(c, ids, w.transfers, newKey, oldKey, limit);
    outcome := CompleteJob(s, c, w, tid, oldKey, rnd, faults, now);
    during, after := DownloadBoth(s, c, w, tid, fid, newKey, oldKey, now, slices, before, rnd.fileKey, staging);
  }

  /** The same download with the previous key configured and without. */
  method DownloadBoth(s: Suite, c: KeyWrap.Cipher, w: World, tid: string, fid: string, newKey: bytes, oldKey: bytes,
      now: int, slices: bytes -> seq<bytes>, ghost before: seq<FileRow>, ghost fileKey: bytes, ghost staging: Staging)
    returns (during: Result<Download.Response, Download.DownloadError>,
             after: Result<Download.Response, Download.DownloadError>)
    requires |oldKey| == KEY_LEN && |newKey| == KEY_LEN && |fileKey| == KEY_LEN
    requires forall b :: Flatten(slices(b)) == b
    requires tid in w.transfers && w.transfers[tid].status == Ready && now < w.transfers[tid].expiresAt
    requires w.transfers[tid].wrappedKey == Some(KeyWrap.Wrap(c, oldKey, fileKey))
    requires EncryptJob.SameFiles(before, w.transfers[tid].files) && FindFile(before, fid).Some?
    requires EncryptJob.StoredAll(s, w.objects, tid, w.transfers[tid].files, fileKey, staging)
    requires Envelope.ForeignTo(c, newKey, KeyWrap.Wrap(c, oldKey, fileKey))
    ensures (tid, fid) in staging && during.Ok? && during.value.ended == Ok(())
    ensures Flatten(during.value.body) == staging[(tid, fid)]
    ensures after == Err(Download.KeyError(Envelope.UnwrapFailed))
  {
    StoredUnder(s, c, w.transfers, w.objects, tid, fid, before, staging, oldKey, newKey, fileKey);
    during := Download.DownloadFile(s, c, w, tid, fid, newKey, Some(oldKey), now, slices);
    after := Download.DownloadFile(s, c, w, tid, fid, newKey, None, now, slices);
  }

  /** A rewrap request that finds no key to rewrap ends with its first page. */
  method RewrapNothing(c: KeyWrap.Cipher, ids: Ids, transfers: Transfers, newKey: bytes, oldKey: bytes, limit: nat)
    returns (ended: bool)
    requires limit > 0 && forall t :: t in transfers ==> IsId(ids, t) && transfers[t].wrappedKey.None?
    ensures ended
  {
    var column := Column(ids, transfers);
    assert Rotation.Keyed(column) == {};
    Rotation.PageCovers(column, None, limit);
    var _, _, e := Rotation.RunChunk(c, newKey, oldKey, column, None, false, map[], limit);
    ended := e;
  }

  /** A job in which nothing fails. */
  method CompleteJob(s: Suite, c: KeyWrap.Cipher, w: World, tid: string, master: bytes, rnd: EncryptJob.Random,
      faults: EncryptJob.Faults, now: int)
    returns (outcome: EncryptJob.Outcome)
    requires tid in w.transfers && w.transfers[tid].status == Uploading && PlainId(tid)
    requires DistinctFiles(w.transfers[tid].files) && EncryptJob.GoodRandom(rnd)
    requires faults.lock.Answered? && tid !in w.locks && !faults.lookup && !faults.query
    requires EncryptJob.Succeeds(w.staging, tid, w.transfers[tid].files, master, faults)
    modifies w
    ensures outcome.Processed? && outcome.result.Completed?
    ensures tid in w.transfers && w.transfers[tid].status == Ready
    ensures w.transfers[tid].expiresAt == old(w.transfers)[tid].expiresAt
    ensures w.transfers[tid].wrappedKey == Some(KeyWrap.Wrap(c, master, rnd.fileKey))
    ensures EncryptJob.SameFiles(old(w.transfers)[tid].files, w.transfers[tid].files)
    ensures EncryptJob.StoredAll(s, w.objects, tid, w.transfers[tid].files, rnd.fileKey, old(w.staging))
  {
    outcome := EncryptJob.ProcessEncryptJob(s, c, w, tid, master, rnd, faults, now);
  }

  /** A transfer completed under the old key, and what each configuration makes of it. */
  lemma StoredUnder(s: Suite, c: KeyWrap.Cipher, transfers: Transfers, objects: Objects, tid: string, fid: string,
      before: seq<FileRow>, staging: Staging, oldKey: bytes, newKey: bytes, fileKey: bytes)
    requires |oldKey| == KEY_LEN && |newKey| == KEY_LEN && |fileKey| == KEY_LEN && tid in transfers
    requires transfers[tid].wrappedKey == Some(KeyWrap.Wrap(c, oldKey, fileKey))
    requires EncryptJob.SameFiles(before, transfers[tid].files) && FindFile(before, fid).Some?
    requires EncryptJob.StoredAll(s, objects, tid, transfers[tid].files, fileKey, staging)
    requires Envelope.ForeignTo(c, newKey, KeyWrap.Wrap(c, oldKey, fileKey))
    ensures FindFile(transfers[tid].files, fid).Some? && (tid, fid) in staging
    ensures Download.Recoverable(s, c, newKey, Some(oldKey), transfers[tid], objects, tid,
                                 FindFile(transfers[tid].files, fid).value, fileKey, staging[(tid, fid)])
    ensures Envelope.UnwrapKey(c, newKey, KeyWrap.Wrap(c, oldKey, fileKey), None) == Err(Envelope.UnwrapFailed)
  {
    var files := transfers[tid].files;
    var i :| 0 <= i < |before| && before[i] == FindFile(before, fid).value;
    assert files[i] in files && files[i].id == fid;
    var j :| 0 <= j < |files| && files[j] == FindFile(files, fid).value;
    Envelope.FallbackRecovers(c, newKey, oldKey, fileKey);
    Envelope.OldBlobWithoutFallback(c, newKey, oldKey, fileKey);
  }
}
