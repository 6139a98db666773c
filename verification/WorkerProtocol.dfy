/** The encrypt worker protocol at the grain of its await points: any number of workers and
    queue entries, other handlers in between, crashes, and a Redis lock with a time to live
    (backend/app/worker/tasks/encrypt.py). One transfer; the queue is the freedom of any
    worker to start at any time. */
module WorkerProtocol {
  import opened Bytes
  import opened Model

  const LOCK_TTL := 600

  type WorkerId = nat

  /** A run that holds (or believes it holds) the lock taken at `since`. */
  datatype Phase = Locked | Encrypting | Releasing

  datatype Running = Running(since: int, phase: Phase)

  datatype State = State(
    now: int,
    status: Status,
    keySet: bool,
    lockExpiry: Option<int>,             // the lock key and when Redis drops it
    workers: map<WorkerId, Running>,
    completions: nat)                    // upload_complete audit rows, and keys committed with them

  datatype Step =
    | Tick(d: nat)
    | TryLock(w: WorkerId)
    | CheckStatus(w: WorkerId)
    | CommitReady(w: WorkerId)
    | CommitInfected(w: WorkerId)        // recovery after a failure anywhere in the loop
    | GiveUp(w: WorkerId)                // a failed read, a cancelled commit, or a failed recovery
    | Release(w: WorkerId)
    | Crash(w: WorkerId)                 // the process dies; its lock stays until it expires
    | Delete
    | Revoke
    | PollInfected
    | Sweep

  predicate LockFree(s: State) {
    s.lockExpiry.None? || s.lockExpiry.value <= s.now
  }

  predicate InPhase(s: State, w: WorkerId, p: Phase) {
    w in s.workers && s.workers[w].phase == p
  }

  predicate Enabled(s: State, step: Step) {
    match step
    case Tick(_) => true
    case TryLock(w) => w !in s.workers
    case CheckStatus(w) => InPhase(s, w, Locked)
    case CommitReady(w) => InPhase(s, w, Encrypting)
    case CommitInfected(w) => InPhase(s, w, Encrypting)
    case GiveUp(w) => InPhase(s, w, Locked) || InPhase(s, w, Encrypting)
    case Release(w) => InPhase(s, w, Releasing)
    case Crash(w) => w in s.workers
    case Delete => s.status != Deleted
    case Revoke => s.status in {Uploading, Ready}
    case PollInfected => s.status == Uploading
    case Sweep => s.status == Ready
  }

  function GoTo(s: State, w: WorkerId, p: Phase): State
    requires w in s.workers
  {
    s.(workers := s.workers[w := s.workers[w].(phase := p)])
  }

  function Next(s: State, step: Step): State
    requires Enabled(s, step)
  {
    match step
    case Tick(d) => s.(now := s.now + d)
    case TryLock(w) =>
      if LockFree(s)
      then s.(lockExpiry := Some(s.now + LOCK_TTL), workers := s.workers[w := Running(s.now, Locked)])
      else s
    case CheckStatus(w) => GoTo(s, w, if s.status == Uploading then Encrypting else Releasing)
    case CommitReady(w) => GoTo(s, w, Releasing).(status := Ready, keySet := true, completions := s.completions + 1)
    case CommitInfected(w) => GoTo(s, w, Releasing).(status := Infected)
    case GiveUp(w) => GoTo(s, w, Releasing)
    case Release(w) => s.(lockExpiry := None, workers := s.workers - {w})
    case Crash(w) => s.(workers := s.workers - {w})
    case Delete => s.(status := Deleted, keySet := false)
    case Revoke => s.(status := Revoked)
    case PollInfected => s.(status := Infected)
    case Sweep => s.(status := Expired, keySet := false)
  }

  function Run(s: State, steps: seq<Step>): State {
    if steps == [] then s
    else
      var before := Run(s, steps[..|steps| - 1]);
      var last := steps[|steps| - 1];
      if Enabled(before, last) then Next(before, last) else before
  }

  function Start(now: int): State {
    State(now, Uploading, false, None, map[], 0)
  }

  /** No run is still under way when its lock expires. */
  ghost predicate WithinTtl(s: State) {
    forall w :: w in s.workers ==> s.now < s.workers[w].since + LOCK_TTL
  }

  /** The assumption on a run: its every state keeps within the lock's time to live. */
  ghost predicate TimelyRun(s: State, steps: seq<Step>) {
    forall n :: 0 <= n <= |steps| ==> WithinTtl(Run(s, steps[..n]))
  }

  /** A live run's lock is the one in Redis, so there is at most one run; and a completed
      transfer has left `uploading`, with no run still trusting an earlier look. A key is there
      only while the transfer is ready or revoked, and always while it is ready. */
  ghost predicate Inv(s: State) {
    && (forall w :: w in s.workers ==>
          s.lockExpiry == Some(s.workers[w].since + LOCK_TTL) && s.workers[w].since <= s.now)
    && (forall v, w :: v in s.workers && w in s.workers ==> v == w)
    && s.completions <= 1
    && (s.completions == 1 ==> s.status != Uploading && forall w :: w in s.workers ==> s.workers[w].phase != Encrypting)
    && (s.keySet ==> s.completions == 1 && s.status in {Ready, Revoked})
    && (s.status == Ready ==> s.keySet)
  }

  lemma NextKeepsInv(s: State, step: Step)
    requires Inv(s) && WithinTtl(s) && Enabled(s, step)
    ensures Inv(Next(s, step))
  {
  }

  lemma {:induction false} TimelyRunKeepsInv(s: State, steps: seq<Step>)
    requires Inv(s) && TimelyRun(s, steps)
    ensures Inv(Run(s, steps))
  {
    if steps != [] {
      var init := steps[..|steps| - 1];
      assert TimelyRun(s, init) by {
        forall n | 0 <= n <= |init| ensures WithinTtl(Run(s, init[..n])) {
          assert init[..n] == steps[..n];
        }
      }
      TimelyRunKeepsInv(s, init);
      assert steps[..|init|] == init;
      if Enabled(Run(s, init), steps[|init|]) {
        NextKeepsInv(Run(s, init), steps[|init|]);
      }
    }
  }

  /** For any number of duplicate jobs, any interleaving of workers, crashes, deletes,
      revokes, polls and sweeps: at most one upload_complete, and never two runs at once. */
  lemma AtMostOneCompletion(now: int, steps: seq<Step>)
    requires TimelyRun(Start(now), steps)
    ensures Run(Start(now), steps).completions <= 1
    ensures Run(Start(now), steps).keySet ==> Run(Start(now), steps).status in {Ready, Revoked}
    ensures Run(Start(now), steps).status == Ready ==> Run(Start(now), steps).keySet
    ensures forall v, w :: v in Run(Start(now), steps).workers && w in Run(Start(now), steps).workers ==> v == w
  {
    TimelyRunKeepsInv(Start(now), steps);
  }

  /** No step of any run, timely or not, brings a transfer back to uploading. */
  lemma {:induction false} UploadingNeverReentered(s: State, steps: seq<Step>)
    requires s.status != Uploading
    ensures Run(s, steps).status != Uploading
  {
    if steps != [] {
      UploadingNeverReentered(s, steps[..|steps| - 1]);
    }
  }

  lemma RunOne(s: State, first: seq<Step>, step: Step)
    ensures Run(s, first + [step]) == if Enabled(Run(s, first), step) then Next(Run(s, first), step) else Run(s, first)
  {
    assert (first + [step])[..|first|] == first;
  }

  lemma {:induction false} RunOnwards(s: State, first: seq<Step>, more: seq<Step>)
    ensures Run(s, first + more) == Run(Run(s, first), more)
  {
    if more == [] {
      assert first + more == first;
    } else {
      var init := more[..|more| - 1];
      RunOnwards(s, first, init);
      assert (first + more)[..|first + more| - 1] == first + init;
    }
  }

  /** Wherever the lock lapses under a run that is still encrypting, a second run gets in, and
      both complete. */
  lemma LapsedLockAdmitsASecondRun(s: State, w: WorkerId, v: WorkerId)
    requires InPhase(s, w, Encrypting) && s.status == Uploading && LockFree(s) && v !in s.workers
    ensures Run(s, [TryLock(v), CheckStatus(v)] + [CommitReady(w), CommitReady(v)]).completions == s.completions + 2
  {
    var s1 := Next(s, TryLock(v));
    var s2 := Next(s1, CheckStatus(v));
    assert s2 == Run(s, [TryLock(v), CheckStatus(v)]) by { RunTwo(s, TryLock(v), CheckStatus(v)); }
    RunTwo(s2, CommitReady(w), CommitReady(v));
    RunOnwards(s, [TryLock(v), CheckStatus(v)], [CommitReady(w), CommitReady(v)]);
  }

  lemma RunTwo(s: State, a: Step, b: Step)
    requires Enabled(s, a) && Enabled(Next(s, a), b)
    ensures Run(s, [a, b]) == Next(Next(s, a), b)
  {
    RunOne(s, [], a);
    assert [] + [a] == [a];
    RunOne(s, [a], b);
    assert [a] + [b] == [a, b];
  }

  ghost predicate NoTick(steps: seq<Step>) {
    forall i :: 0 <= i < |steps| ==> !steps[i].Tick?
  }

  /** While no time passes, no run outlives its lock. */
  lemma {:induction false} InstantRunKeepsInv(s: State, steps: seq<Step>)
    requires Inv(s) && WithinTtl(s) && NoTick(steps)
    ensures Inv(Run(s, steps)) && WithinTtl(Run(s, steps))
  {
    if steps != [] {
      var init := steps[..|steps| - 1];
      InstantRunKeepsInv(s, init);
      if Enabled(Run(s, init), steps[|init|]) {
        NextKeepsInv(Run(s, init), steps[|init|]);
      }
    }
  }

  /** So, of all states in which the protocol's invariant holds and a run is encrypting an
      uploading transfer, a second completion is possible at once in exactly those in which
      that run's lock has lapsed. */
  lemma SecondCompletionIffLapsed(s: State, w: WorkerId)
    requires Inv(s) && InPhase(s, w, Encrypting) && s.status == Uploading
    ensures (exists steps :: NoTick(steps) && Run(s, steps).completions >= 2) <==> LockFree(s)
  {
    if LockFree(s) {
      var v := w + 1;
      assert v !in s.workers;
      LapsedLockAdmitsASecondRun(s, w, v);
      assert NoTick([TryLock(v), CheckStatus(v)] + [CommitReady(w), CommitReady(v)]);
    } else {
      forall v | v in s.workers ensures s.now < s.workers[v].since + LOCK_TTL {
        assert v == w;
      }
      forall steps | NoTick(steps) ensures Run(s, steps).completions <= 1 {
        InstantRunKeepsInv(s, steps);
      }
    }
  }

  /** That can happen: a run of 600 seconds is enough, and release is not ownership-checked. */
  lemma OutlivingTheLockCompletesTwice()
    ensures exists steps :: Run(Start(0), steps).completions == 2
  {
    var first := [TryLock(0), CheckStatus(0)];
    RunTwo(Start(0), TryLock(0), CheckStatus(0));
    RunOne(Start(0), first, Tick(600));
    var s := Run(Start(0), first + [Tick(600)]);
    LapsedLockAdmitsASecondRun(s, 0, 1);
    RunOnwards(Start(0), first + [Tick(600)], [TryLock(1), CheckStatus(1)] + [CommitReady(0), CommitReady(1)]);
  }

  ghost predicate NobodyEncrypting(s: State) {
    forall w :: !InPhase(s, w, Encrypting)
  }

  /** What a delete, revoke, poll or sweep meant to achieve: from here on the transfer stays
      out of service, and without a key if it has none. */
  ghost predicate Final(s: State, t: State) {
    t.status in {s.status, Deleted} && (t.keySet ==> s.keySet)
  }

  lemma {:induction false} OutOfServiceRun(s: State, steps: seq<Step>)
    requires s.status !in {Uploading, Ready} && NobodyEncrypting(s)
    ensures Final(s, Run(s, steps)) && NobodyEncrypting(Run(s, steps))
  {
    if steps != [] {
      OutOfServiceRun(s, steps[..|steps| - 1]);
      var before, last := Run(s, steps[..|steps| - 1]), steps[|steps| - 1];
      if Enabled(before, last) {
        var after := Next(before, last);
        forall w | InPhase(after, w, Encrypting) ensures false {
          assert !InPhase(before, w, Encrypting);
        }
        assert forall w :: last == CommitReady(w) || last == CommitInfected(w) ==> InPhase(before, w, Encrypting);
      }
    }
  }

  lemma CommitPutsBack(s: State, w: WorkerId)
    requires InPhase(s, w, Encrypting)
    ensures Run(s, [CommitReady(w)]).status == Ready && Run(s, [CommitReady(w)]).keySet
  {
    RunOne(s, [], CommitReady(w));
    assert [] + [CommitReady(w)] == [CommitReady(w)];
  }

  /** A deleted, revoked, infected or expired transfer is so for good, whatever happens next,
      exactly when no run is between its status check and its commit. Otherwise that run's
      commit puts it back in service, key and all. */
  lemma DepartureIsFinalIffNobodyEncrypting(s: State)
    requires s.status !in {Uploading, Ready}
    ensures (forall steps :: Final(s, Run(s, steps))) <==> NobodyEncrypting(s)
    ensures !NobodyEncrypting(s) ==> exists steps :: Run(s, steps).status == Ready && Run(s, steps).keySet
  {
    if NobodyEncrypting(s) {
      forall steps ensures Final(s, Run(s, steps)) {
        OutOfServiceRun(s, steps);
      }
    } else {
      var w :| InPhase(s, w, Encrypting);
      CommitPutsBack(s, w);
      assert !Final(s, Run(s, [CommitReady(w)]));
    }
  }

  /** So an operator who finds no lock in Redis, in a timely run, can rely on a delete: the
      transfer stays deleted and keyless through any future, timely or not. */
  lemma DeleteUnderFreeLockIsFinal(now: int, steps: seq<Step>, later: seq<Step>)
    requires TimelyRun(Start(now), steps)
    requires var s := Run(Start(now), steps); LockFree(s) && s.status != Deleted
    ensures var t := Run(Next(Run(Start(now), steps), Delete), later); t.status == Deleted && !t.keySet
  {
    var s := Run(Start(now), steps);
    TimelyRunKeepsInv(Start(now), steps);
    assert steps[..|steps|] == steps;
    assert WithinTtl(s);
    forall w | w in s.workers ensures false { }
    OutOfServiceRun(Next(s, Delete), later);
  }

  /** The window exists, in a timely run of one worker: check, delete, commit. */
  lemma DeleteInsideTheWindowIsUndone()
    ensures var s := Run(Run(Start(0), [TryLock(0), CheckStatus(0)]), [Delete]);
            && s.status == Deleted && !s.keySet
            && Run(s, [CommitReady(0)]).status == Ready && Run(s, [CommitReady(0)]).keySet
  {
    RunTwo(Start(0), TryLock(0), CheckStatus(0));
    var s := Run(Start(0), [TryLock(0), CheckStatus(0)]);
    RunOne(s, [], Delete);
    assert [] + [Delete] == [Delete];
    CommitPutsBack(Run(s, [Delete]), 0);
  }

  /** After a crash the lock bars every other worker until it expires, and no longer. */
  lemma CrashedLockExpires(s: State, w: WorkerId, d: nat, v: WorkerId)
    requires Inv(s) && WithinTtl(s) && w in s.workers && v !in s.workers
    ensures var crashed := Next(s, Crash(w));
            var later := Next(crashed, Tick(d));
            v in Next(later, TryLock(v)).workers <==> s.now + d >= s.workers[w].since + 600
  {
  }
}
