/** Login with failure counting and lockout (backend/app/services/auth.py:102-114 and the login
    handler in backend/app/routers/admin.py). Times are in one clock unit. */
module Lockout {
  import opened Bytes

  const MAX_FAILED := 5
  const LOCKOUT := 15 * 60

  /** The columns of an account that login reads or writes. */
  class Admin {
    var failedAttempts: nat
    var lockedUntil: Option<int>
    var disabled: bool
    var totpEnrolled: bool
    var totpStored: bool

    ghost function View(): Account
      reads this
    {
      Account(failedAttempts, lockedUntil, disabled, totpEnrolled, totpStored)
    }

    constructor (a: Account)
      ensures View() == a
    {
      failedAttempts, lockedUntil := a.failedAttempts, a.lockedUntil;
      disabled, totpEnrolled, totpStored := a.disabled, a.totpEnrolled, a.totpStored;
    }

    method RegisterFailure(now: int)
      modifies this`failedAttempts, this`lockedUntil
      ensures View() == AfterFailure(old(View()), now)
    {
      failedAttempts := failedAttempts + 1;
      if failedAttempts >= MAX_FAILED {
        lockedUntil := Some(now + LOCKOUT);
      }
    }

    method ResetFailures()
      modifies this`failedAttempts, this`lockedUntil
      ensures View() == old(View()).(failedAttempts := 0, lockedUntil := None)
    {
      failedAttempts, lockedUntil := 0, None;
    }

    method Login(attempt: Attempt) returns (code: nat)
      modifies this`failedAttempts, this`lockedUntil
      ensures code == Respond(old(View()), attempt)
      ensures View() == AfterLogin(old(View()), attempt)
      ensures code == 200 <==>
                && !disabled && !(old(lockedUntil).Some? && old(lockedUntil).value > attempt.time)
                && attempt.passwordOk && totpEnrolled && totpStored && attempt.totpOk
      ensures code == 403 <==> disabled
      ensures code == 423 <==> !disabled && old(lockedUntil).Some? && old(lockedUntil).value > attempt.time
      ensures code == 200 ==> failedAttempts == 0 && lockedUntil.None?
      ensures failedAttempts == old(failedAttempts) + 1 <==>
                && !disabled && !(old(lockedUntil).Some? && old(lockedUntil).value > attempt.time)
                && (!attempt.passwordOk || (totpEnrolled && totpStored && !attempt.totpOk))
      ensures failedAttempts == old(failedAttempts) + 1 ==>
                lockedUntil == if failedAttempts >= 5 then Some(attempt.time + 900) else old(lockedUntil)
      ensures code !in {200, 401} ==> failedAttempts == old(failedAttempts) && lockedUntil == old(lockedUntil)
    {
      if disabled {
        return 403;
      }
      if lockedUntil.Some? && lockedUntil.value > attempt.time {
        return 423;
      }
      if !attempt.passwordOk {
        RegisterFailure(attempt.time);
        return 401;
      }
      if !totpEnrolled {
        return 400;
      }
      if !totpStored {
        return 500;
      }
      if !attempt.totpOk {
        RegisterFailure(attempt.time);
        return 401;
      }
      ResetFailures();
      return 200;
    }
  }

  datatype Account = Account(
    failedAttempts: nat,
    lockedUntil: Option<int>,
    disabled: bool,
    totpEnrolled: bool,
    totpStored: bool)

  datatype Attempt = Attempt(time: int, passwordOk: bool, totpOk: bool)

  predicate Locked(a: Account, now: int) {
    a.lockedUntil.Some? && a.lockedUntil.value > now
  }

  function AfterFailure(a: Account, now: int): Account {
    a.(failedAttempts := a.failedAttempts + 1,
       lockedUntil := if a.failedAttempts + 1 >= MAX_FAILED then Some(now + LOCKOUT) else a.lockedUntil)
  }

  function Respond(a: Account, attempt: Attempt): nat {
    if a.disabled then 403
    else if Locked(a, attempt.time) then 423
    else if !attempt.passwordOk then 401
    else if !a.totpEnrolled then 400
    else if !a.totpStored then 500
    else if !attempt.totpOk then 401
    else 200
  }

  function AfterLogin(a: Account, attempt: Attempt): Account {
    match Respond(a, attempt)
    case 401 => AfterFailure(a, attempt.time)
    case 200 => a.(failedAttempts := 0, lockedUntil := None)
    case _ => a
  }

  // ---- Runs ----

  function Run(a: Account, attempts: seq<Attempt>): Account {
    if attempts == [] then a
    else AfterLogin(Run(a, attempts[..|attempts| - 1]), attempts[|attempts| - 1])
  }

  /** The attempt is looked at: the account is enabled and not locked at that time. */
  predicate Heard(a: Account, attempt: Attempt) {
    !a.disabled && !(a.lockedUntil.Some? && a.lockedUntil.value > attempt.time)
  }

  /** A wrong password, or a right one with a wrong code. */
  predicate Wrong(a: Account, attempt: Attempt) {
    !attempt.passwordOk || (a.totpEnrolled && a.totpStored && !attempt.totpOk)
  }

  predicate Right(a: Account, attempt: Attempt) {
    attempt.passwordOk && a.totpEnrolled && a.totpStored && attempt.totpOk
  }

  /** The times of the wrong attempts that were looked at, since the last right one that was. */
  function FailureTimes(a: Account, attempts: seq<Attempt>): seq<int> {
    if attempts == [] then []
    else
      var init, last := attempts[..|attempts| - 1], attempts[|attempts| - 1];
      var before := Run(a, init);
      if !Heard(before, last) then FailureTimes(a, init)
      else if Wrong(before, last) then FailureTimes(a, init) + [last.time]
      else if Right(before, last) then []
      else FailureTimes(a, init)
  }

  /** An account with a clean record. */
  predicate Clean(a: Account) {
    a.failedAttempts == 0 && a.lockedUntil.None?
  }

  /** Consecutive failures from the fifth on are at least one lockout apart. */
  predicate Spaced(times: seq<int>) {
    forall i :: MAX_FAILED <= i < |times| ==> times[i - 1] + LOCKOUT <= times[i]
  }

  lemma {:induction false} FailuresAreSpaced(a: Account, attempts: seq<Attempt>)
    requires Clean(a)
    ensures Spaced(FailureTimes(a, attempts))
    ensures var t := FailureTimes(a, attempts);
            && Run(a, attempts).failedAttempts == |t|
            && Run(a, attempts).lockedUntil == if |t| >= 5 then Some(t[|t| - 1] + 900) else None
  {
    if attempts != [] {
      FailuresAreSpaced(a, attempts[..|attempts| - 1]);
    }
  }

  lemma {:induction false} SpacedSums(times: seq<int>, n: nat)
    requires Spaced(times) && MAX_FAILED <= n <= |times|
    ensures times[n - 1] >= times[MAX_FAILED - 1] + (n - MAX_FAILED) * LOCKOUT
  {
    if n > MAX_FAILED {
      SpacedSums(times, n - 1);
    }
  }

  /** In any run of logins since a clean record: the n-th counted failure, n >= 5, comes at
      least n - 5 times 15 minutes after the fifth; so by a time T after the fifth, when it is not
      earlier than the last failure, at most 5 + T / 15 min guesses have been counted. */
  lemma LockoutBound(a: Account, attempts: seq<Attempt>, n: nat, elapsed: nat)
    requires Clean(a)
    requires var t := FailureTimes(a, attempts);
             5 <= n <= |t| && t[|t| - 1] <= t[4] + elapsed
    ensures var t := FailureTimes(a, attempts);
            && t[n - 1] >= t[4] + (n - 5) * 900
            && |t| <= 5 + elapsed / 900
  {
    FailuresAreSpaced(a, attempts);
    SpacedSums(FailureTimes(a, attempts), n);
    SpacedSums(FailureTimes(a, attempts), |FailureTimes(a, attempts)|);
  }

  /** The lock is effective: after the fifth and each later failure, every attempt inside the
      lockout is refused unchecked, the right password and code included, and the first
      attempt at its end is judged on its merits. */
  lemma LockRefusesEverything(a: Account, attempts: seq<Attempt>, next: Attempt)
    requires Clean(a) && |FailureTimes(a, attempts)| >= 5 && !Run(a, attempts).disabled
    ensures var t := FailureTimes(a, attempts);
            && (Respond(Run(a, attempts), next) == 423 <==> next.time < t[|t| - 1] + 900)
            && (Respond(Run(a, attempts), next) == 423 ==> AfterLogin(Run(a, attempts), next) == Run(a, attempts))
  {
    FailuresAreSpaced(a, attempts);
  }
}
