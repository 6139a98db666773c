/** What happens to the service from outside, what it answers, and what its answers say about
    the bytes it holds: the staged content of every file, and the content a transfer was
    completed with, are determined by the record of actions and answers alone. */
module Record {
  import opened Bytes
  import opened Model
  import opened Storage
  import EncryptJob
  import Handlers
  import Lifecycle
  import Tus

  datatype Action =
    | Tick(d: nat)                                                   // time passes
    | Create(tid: string, expiresAt: int, requested: seq<Handlers.FileRequest>)
    | Patch(tid: string, fid: string, offset: int, body: bytes)
    | Quarantine(tid: string, fid: string)                           // the scanner removes a staged file
    | Job(tid: string, rnd: EncryptJob.Random, faults: EncryptJob.Faults)
    | LockExpiry(tid: string)
    | Delete(tid: string, stuck: set<string>, commitFails: bool)     // by sender or administrator
    | Revoke(tid: string)                                            // by sender or administrator
    | Poll(directories: set<string>)
    | Sweep(sweepFaults: Lifecycle.SweepFaults)
    | RewrapChunk(limit: nat)
    | RewrapRestart                                                  // the rewrap request dies
    | OpenWindow(key: bytes)                                         // the API gets a new master key
    | RestartWorker                                                  // so does the worker
    | CloseWindow                                                    // the previous one is removed

  datatype Reply =
    | Done
    | Answered(result: Tus.PatchResult)
    | Worked(outcome: EncryptJob.Outcome)
    | Polled(flipped: set<string>)
    | Swept(wiped: set<string>, committed: bool)
    | Coded(code: nat)

  datatype Entry = Entry(action: Action, reply: Reply)

  type Log = seq<Entry>

  // ---- Status, expiry and files ----

  /** What a transfer was created with. */
  datatype Creation = Creation(expiresAt: int, requested: seq<Handlers.FileRequest>)

  function CreationOf(log: Log, tid: string): Option<Creation> {
    if log == [] then None
    else
      match CreationOf(log[..|log| - 1], tid)
      case Some(c) => Some(c)
      case None =>
        match log[|log| - 1].action
        case Create(t, expiresAt, requested) => if t == tid then Some(Creation(expiresAt, requested)) else None
        case _ => None
  }

  /** The declared size of a requested file. */
  function DeclaredSize(requested: seq<Handlers.FileRequest>, fid: string): Option<nat> {
    if requested == [] then None
    else if requested[0].id == fid then Some(requested[0].size)
    else DeclaredSize(requested[1..], fid)
  }

  /** What one entry makes of a transfer's status, going by the answers. */
  function AfterStatus(status: Option<Status>, e: Entry, tid: string): Option<Status> {
    match e
    case Entry(Create(t, _, _), _) => if t == tid && status.None? then Some(Uploading) else status
    case Entry(Job(t, _, _), Worked(Processed(result))) =>
      if t != tid || result.Stranded? then status else if result.Completed? then Some(Ready) else Some(Infected)
    case Entry(Delete(t, _, _), Coded(code)) => if t == tid && code == 204 then Some(Deleted) else status
    case Entry(Revoke(t), Coded(code)) =>
      if t == tid && code == 204 && status in {Some(Uploading), Some(Ready)} then Some(Revoked) else status
    case Entry(Poll(_), Polled(flipped)) => if tid in flipped then Some(Infected) else status
    case Entry(Sweep(_), Swept(wiped, committed)) => if committed && tid in wiped then Some(Expired) else status
    case _ => status
  }

  function StatusOf(log: Log, tid: string): Option<Status> {
    if log == [] then None else AfterStatus(StatusOf(log[..|log| - 1], tid), log[|log| - 1], tid)
  }

  /** How much time has passed. */
  function Elapsed(actions: seq<Action>): nat {
    if actions == [] then 0
    else
      var last := actions[|actions| - 1];
      Elapsed(actions[..|actions| - 1]) + if last.Tick? then last.d else 0
  }

  // ---- Staged content ----

  /** How the entry shredded the transfer's staging files, if it did. */
  function ShredOf(e: Entry, tid: string): Option<ShredFault> {
    match e
    case Entry(Job(t, _, faults), Worked(Processed(_))) => if t == tid then Some(faults.shred) else None
    case Entry(Sweep(faults), Swept(wiped, _)) => if tid in wiped then Some(faults.shred) else None
    case _ => None
  }

  /** The scanner took this file. */
  predicate Takes(e: Entry, tid: string, fid: string) {
    e.action.Quarantine? && e.action.tid == tid && e.action.fid == fid
  }

  function AfterShred(fault: ShredFault, key: (string, string), content: bytes): bytes {
    if key in fault.stuck then Overwritten(fault, key, content) else []
  }

  /** The piece of a PATCH body for this file that the answer says was kept, if the entry is one:
      all of an accepted body, and of one refused with 413 as much as fits. */
  function PieceOf(e: Entry, tid: string, fid: string, size: nat, content: bytes): Option<bytes> {
    match e
    case Entry(Patch(t, f, _, body), Answered(result)) =>
      if (t, f) != (tid, fid) then None
      else if result.Accepted? then Some(body)
      else if result.code == 413 then Some(body[..Min(|body|, Max(0, size - |content|))])
      else None
    case _ => None
  }

  /** One entry's effect on the staged content of a file of declared size `size`: a kept piece
      is appended, and a shred or the scanner wipes. No other entry has any, deletes, revokes
      and polls included. */
  function AfterEntry(content: bytes, e: Entry, tid: string, fid: string, size: nat): bytes {
    if Takes(e, tid, fid) then []
    else match ShredOf(e, tid)
      case Some(fault) => AfterShred(fault, (tid, fid), content)
      case None =>
        match PieceOf(e, tid, fid, size, content)
        case Some(piece) => content + piece
        case None => content
  }

  function Staged(log: Log, tid: string, fid: string, size: nat): bytes {
    if log == [] then []
    else AfterEntry(Staged(log[..|log| - 1], tid, fid, size), log[|log| - 1], tid, fid, size)
  }

  /** The worker reached a verdict on the transfer: ready or infected. */
  predicate Decides(e: Entry, tid: string) {
    && e.action.Job? && e.action.tid == tid
    && e.reply.Worked? && e.reply.outcome.Processed? && !e.reply.outcome.result.Stranded?
  }

  predicate Completes(e: Entry, tid: string) {
    Decides(e, tid) && e.reply.outcome.result.Completed?
  }

  predicate Decided(log: Log, tid: string) {
    log != [] && (Decides(log[|log| - 1], tid) || Decided(log[..|log| - 1], tid))
  }

  predicate Completed(log: Log, tid: string) {
    log != [] && (Completes(log[|log| - 1], tid) || Completed(log[..|log| - 1], tid))
  }

  lemma {:induction false} CompletedIsDecided(log: Log, tid: string)
    requires Completed(log, tid)
    ensures Decided(log, tid)
  {
    if !Completes(log[|log| - 1], tid) {
      CompletedIsDecided(log[..|log| - 1], tid);
    }
  }

  /** The bytes kept for a file of a completed transfer: what was staged when it completed. */
  function Kept(log: Log, tid: string, fid: string, size: nat): bytes {
    if log == [] then []
    else if Completes(log[|log| - 1], tid) then Staged(log[..|log| - 1], tid, fid, size)
    else Kept(log[..|log| - 1], tid, fid, size)
  }

  /** The moment a transfer was completed, and what was staged for it then. */
  lemma {:induction false} KeptAt(log: Log, tid: string, fid: string, size: nat) returns (n: nat)
    requires Completed(log, tid)
    ensures n < |log| && Completes(log[n], tid) && Kept(log, tid, fid, size) == Staged(log[..n], tid, fid, size)
  {
    n := |log| - 1;
    if !Completes(log[n], tid) {
      n := KeptAt(log[..n], tid, fid, size);
      assert log[..|log| - 1][..n] == log[..n];
    }
  }

  // ---- Failed shreds and failed deletes ----

  /** The file is what the last shred of the transfer left: it was not empty and could not be
      unlinked, and the scanner has not taken it since. */
  predicate LeftByShred(log: Log, tid: string, fid: string, size: nat) {
    if log == [] then false
    else
      var init, e := log[..|log| - 1], log[|log| - 1];
      if Takes(e, tid, fid) then false
      else match ShredOf(e, tid)
        case Some(fault) => (tid, fid) in fault.stuck && Staged(init, tid, fid, size) != []
        case None => LeftByShred(init, tid, fid, size)
  }

  /** Since the file was last wiped, some shred has overwritten part of it and not unlinked it. */
  predicate Scrambled(log: Log, tid: string, fid: string, size: nat) {
    if log == [] then false
    else
      var init, e := log[..|log| - 1], log[|log| - 1];
      if Takes(e, tid, fid) then false
      else match ShredOf(e, tid)
        case Some(fault) =>
          var content := Staged(init, tid, fid, size);
          (tid, fid) in fault.stuck
            && (Scrambled(init, tid, fid, size) || Overwritten(fault, (tid, fid), content) != content)
        case None => Scrambled(init, tid, fid, size)
  }

  /** A delete of the transfer that removed its objects and could not commit. */
  predicate FailsToDelete(e: Entry, tid: string) {
    e.action.Delete? && e.action.tid == tid && e.reply == Coded(500)
  }

  /** Since the transfer was completed, some delete of it has removed this file's object and
      could not commit. */
  predicate Lost(log: Log, tid: string, fid: string) {
    if log == [] then false
    else
      var init, e := log[..|log| - 1], log[|log| - 1];
      if Completes(e, tid) then false
      else Lost(init, tid, fid) || (FailsToDelete(e, tid) && ObjectKey(tid, fid) !in e.action.stuck)
  }

  lemma OneMore(log: Log, e: Entry, tid: string)
    ensures forall fid, size ::
              Staged(log + [e], tid, fid, size) == AfterEntry(Staged(log, tid, fid, size), e, tid, fid, size)
    ensures forall fid, size ::
              Kept(log + [e], tid, fid, size)
                == if Completes(e, tid) then Staged(log, tid, fid, size) else Kept(log, tid, fid, size)
    ensures Decided(log + [e], tid) <==> Decides(e, tid) || Decided(log, tid)
    ensures Completed(log + [e], tid) <==> Completes(e, tid) || Completed(log, tid)
    ensures forall fid ::
              Lost(log + [e], tid, fid) <==>
                !Completes(e, tid)
                  && (Lost(log, tid, fid) || (FailsToDelete(e, tid) && ObjectKey(tid, fid) !in e.action.stuck))
    ensures forall fid, size ::
              LeftByShred(log + [e], tid, fid, size) <==>
                if Takes(e, tid, fid) then false
                else match ShredOf(e, tid)
                  case Some(fault) => (tid, fid) in fault.stuck && Staged(log, tid, fid, size) != []
                  case None => LeftByShred(log, tid, fid, size)
  {
    assert (log + [e])[..|log|] == log;
  }

  // ---- Staged content as pieces of PATCH bodies ----

  /** The pieces of PATCH bodies staged for a file since it was last wiped. */
  function Pieces(log: Log, tid: string, fid: string, size: nat): seq<bytes> {
    if log == [] then []
    else
      var before, e := Pieces(log[..|log| - 1], tid, fid, size), log[|log| - 1];
      if Takes(e, tid, fid) then []
      else match ShredOf(e, tid)
        case Some(fault) => if (tid, fid) in fault.stuck then before else []
        case None =>
          match PieceOf(e, tid, fid, size, Flatten(before))
          case Some(piece) => before + [piece]
          case None => before
  }

  /** Staged content is made of pieces of PATCH bodies, in order, and of nothing else, unless a
      shred has overwritten bytes of it since it was last wiped. */
  lemma {:induction false} StagedIsPieces(log: Log, tid: string, fid: string, size: nat)
    requires !Scrambled(log, tid, fid, size)
    ensures Staged(log, tid, fid, size) == Flatten(Pieces(log, tid, fid, size))
  {
    if log != [] {
      var init, e := log[..|log| - 1], log[|log| - 1];
      if !Takes(e, tid, fid) && (ShredOf(e, tid).Some? ==> (tid, fid) in ShredOf(e, tid).value.stuck) {
        StagedIsPieces(init, tid, fid, size);
        var before := Pieces(init, tid, fid, size);
        var piece := PieceOf(e, tid, fid, size, Flatten(before));
        if ShredOf(e, tid).None? && piece.Some? {
          FlattenSnoc(before, piece.value);
        }
      }
    }
  }
}
