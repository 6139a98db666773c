/** The fixed-window rate limiter (backend/app/services/rate_limit.py). Time is in milliseconds,
    as Redis keeps it, and never moves backwards. */
module RateLimit {
  import opened Bytes

  const SECOND := 1000

  /** A Redis counter and the time it disappears. */
  datatype Counter = Counter(count: nat, expiresAt: int)

  type Counters = map<string, Counter>

  datatype RateCheck = RateCheck(allowed: bool, remaining: int, retryAfter: int)

  /** INCR, and EXPIRE when that created the key. */
  function Hit(current: Option<Counter>, now: int, window: nat): Counter {
    if current.Some? && current.value.expiresAt > now
    then current.value.(count := current.value.count + 1)
    else Counter(1, now + window)
  }

  function Lookup(counters: Counters, key: string): Option<Counter> {
    if key in counters then Some(counters[key]) else None
  }

  /** What the TTL command answers: the remaining time in seconds, rounded to the nearest. */
  function Ttl(milliseconds: int): int {
    (milliseconds + SECOND / 2) / SECOND
  }

  /** The verdict on the counter's new value. A zero or negative limit denies everything. */
  function Verdict(c: Counter, now: int, limit: int): RateCheck {
    if c.count > limit
    then RateCheck(false, 0, Max(Ttl(c.expiresAt - now), 0))
    else RateCheck(true, limit - c.count, Max(Ttl(c.expiresAt - now), 0))
  }

  class RateLimiter {
    var counters: Counters

    constructor ()
      ensures counters == map[]
    {
      counters := map[];
    }

    method Consume(key: string, limit: int, seconds: nat, now: int) returns (r: RateCheck)
      modifies this
      ensures counters == old(counters)[key := Hit(Lookup(old(counters), key), now, seconds * SECOND)]
      ensures r == Verdict(Hit(Lookup(old(counters), key), now, seconds * SECOND), now, limit)
      ensures var open := key in old(counters) && old(counters)[key].expiresAt > now;
              var count := if open then old(counters)[key].count + 1 else 1;
              var end := if open then old(counters)[key].expiresAt else now + 1000 * seconds;
              && counters == old(counters)[key := Counter(count, end)]
              && (r.allowed <==> count <= limit)
              && r.remaining == (if count <= limit then limit - count else 0)
              && r.retryAfter == Max((end - now + 500) / 1000, 0)
    {
      var c := 1;
      if key in counters && counters[key].expiresAt > now {
        c := counters[key].count + 1;
        counters := counters[key := counters[key].(count := c)];
      } else {
        counters := counters[key := Counter(c, now + seconds * SECOND)];
      }
      var ttl := Ttl(counters[key].expiresAt - now);
      if c > limit {
        return RateCheck(false, 0, Max(ttl, 0));
      }
      return RateCheck(true, limit - c, Max(ttl, 0));
    }
  }

  // ---- The bound, over every run on one key ----

  /** A request at some time, under the limit in force then. */
  datatype Request = Request(time: int, limit: int)

  function State(requests: seq<Request>, window: nat): Option<Counter> {
    if requests == [] then None
    else
      var last := requests[|requests| - 1];
      Some(Hit(State(requests[..|requests| - 1], window), last.time, window))
  }

  predicate Monotone(requests: seq<Request>) {
    forall i, j :: 0 <= i <= j < |requests| ==> requests[i].time <= requests[j].time
  }

  predicate LastAllowed(requests: seq<Request>, window: nat)
    requires requests != []
  {
    var last := requests[|requests| - 1];
    Verdict(State(requests, window).value, last.time, last.limit).allowed
  }

  /** Requests allowed in windows that expire at a time in [lo, hi). */
  function AllowedExpiring(requests: seq<Request>, window: nat, lo: int, hi: int): nat {
    if requests == [] then 0
    else
      AllowedExpiring(requests[..|requests| - 1], window, lo, hi)
        + if lo <= State(requests, window).value.expiresAt < hi && LastAllowed(requests, window) then 1 else 0
  }

  /** Requests allowed at a time in [lo, hi). */
  function AllowedDuring(requests: seq<Request>, window: nat, lo: int, hi: int): nat {
    if requests == [] then 0
    else
      AllowedDuring(requests[..|requests| - 1], window, lo, hi)
        + if lo <= requests[|requests| - 1].time < hi && LastAllowed(requests, window) then 1 else 0
  }

  /** No window expires after the latest one. */
  lemma {:induction false} ExpiriesInThePast(requests: seq<Request>, window: nat, lo: int, hi: int)
    requires Monotone(requests) && (requests != [] ==> lo > State(requests, window).value.expiresAt)
    ensures AllowedExpiring(requests, window, lo, hi) == 0
  {
    if requests != [] {
      var init := requests[..|requests| - 1];
      if init != [] {
        StateInPast(init, window, requests[|requests| - 1].time);
      }
      ExpiriesInThePast(init, window, lo, hi);
    }
  }

  /** Expiry times never decrease from one request to the next. */
  lemma StateInPast(requests: seq<Request>, window: nat, time: int)
    requires requests != [] && Monotone(requests) && requests[|requests| - 1].time <= time
    ensures State(requests, window).Some?
    ensures State(requests, window).value.expiresAt <= Hit(State(requests, window), time, window).expiresAt
  {
  }

  /** Among the windows expiring within one window length of each other there is only one,
      and it allows no more than the largest limit in force. */
  lemma {:induction false} OneWindowBound(requests: seq<Request>, window: nat, lo: int, hi: int, most: nat)
    requires Monotone(requests) && window > 0 && hi <= lo + window
    requires forall r :: r in requests ==> r.limit <= most
    ensures AllowedExpiring(requests, window, lo, hi) <= most
    ensures requests != [] && lo <= State(requests, window).value.expiresAt < hi ==>
              AllowedExpiring(requests, window, lo, hi) <= State(requests, window).value.count
  {
    if requests != [] {
      var init, last := requests[..|requests| - 1], requests[|requests| - 1];
      OneWindowBound(init, window, lo, hi, most);
      var before, after := State(init, window), State(requests, window).value;
      assert last in requests;
      if lo <= after.expiresAt < hi && !(before.Some? && before.value.expiresAt > last.time) {
        ExpiriesInThePast(init, window, lo, hi);
      }
    }
  }

  /** A request's window expires after it and no more than one window length after it. */
  lemma {:induction false} ExpiryAhead(requests: seq<Request>, window: nat)
    requires Monotone(requests) && requests != [] && window > 0
    ensures var time, end := requests[|requests| - 1].time, State(requests, window).value.expiresAt;
            time < end <= time + window
  {
    var init := requests[..|requests| - 1];
    if init != [] {
      ExpiryAhead(init, window);
    }
  }

  /** Requests allowed from time `from` on, in windows that expire within one window length
      of it, hence opened before it. */
  function AllowedLate(requests: seq<Request>, window: nat, from: int): nat {
    if requests == [] then 0
    else
      AllowedLate(requests[..|requests| - 1], window, from)
        + if from <= requests[|requests| - 1].time && State(requests, window).value.expiresAt < from + window
             && LastAllowed(requests, window) then 1 else 0
  }

  /** The opening request of such a window came earlier, so it allows one fewer. */
  lemma {:induction false} LateBound(requests: seq<Request>, window: nat, from: int, most: nat)
    requires Monotone(requests) && window > 0
    requires forall r :: r in requests ==> r.limit <= most
    ensures AllowedLate(requests, window, from) <= Max(0, most - 1)
    ensures requests != [] && State(requests, window).value.expiresAt < from + window ==>
              AllowedLate(requests, window, from) <= State(requests, window).value.count - 1
    ensures requests != [] && State(requests, window).value.expiresAt <= from ==>
              AllowedLate(requests, window, from) == 0
  {
    if requests != [] {
      var init, last := requests[..|requests| - 1], requests[|requests| - 1];
      LateBound(init, window, from, most);
      assert last in requests;
      if init != [] {
        StateInPast(init, window, last.time);
      }
    }
  }

  lemma {:induction false} SplitByExpiry(requests: seq<Request>, window: nat, from: int)
    requires Monotone(requests) && window > 0
    ensures AllowedDuring(requests, window, from, from + window)
         <= AllowedLate(requests, window, from) + AllowedExpiring(requests, window, from + window, from + 2 * window)
  {
    if requests != [] {
      ExpiryAhead(requests, window);
      SplitByExpiry(requests[..|requests| - 1], window, from);
    }
  }

  /** With a window of one millisecond the opening request of a window is the only one before
      its end, so nothing of it is left for later. */
  lemma {:induction false} ShortWindow(requests: seq<Request>, from: int)
    requires Monotone(requests)
    ensures AllowedLate(requests, 1, from) == 0
  {
    if requests != [] {
      ExpiryAhead(requests, 1);
      ShortWindow(requests[..|requests| - 1], from);
    }
  }

  /** The most requests a limit lets through within one window length. */
  function WorstCase(limit: nat, window: nat): nat {
    if limit == 0 then 0 else if window == 1 then limit else 2 * limit - 1
  }

  /** With limits that vary over time: one window allows at most the largest limit in force,
      and any half-open interval of one window length at most the worst case for it. */
  lemma RateBound(requests: seq<Request>, window: nat, most: nat, expiry: int, from: int)
    requires Monotone(requests) && window > 0
    requires forall r :: r in requests ==> r.limit <= most
    ensures AllowedExpiring(requests, window, expiry, expiry + 1) <= most
    ensures AllowedDuring(requests, window, from, from + window) <= WorstCase(most, window)
  {
    OneWindowBound(requests, window, expiry, expiry + 1, most);
    LateBound(requests, window, from, most);
    OneWindowBound(requests, window, from + window, from + 2 * window, most);
    SplitByExpiry(requests, window, from);
    if window == 1 {
      ShortWindow(requests, from);
    }
  }

  /** The same requests with the limits outside [lo, hi) cut down to `most`. */
  function Clip(requests: seq<Request>, lo: int, hi: int, most: nat): seq<Request> {
    seq(|requests|, i requires 0 <= i < |requests| =>
      var r := requests[i];
      if lo <= r.time < hi then r else Request(r.time, Min(r.limit, most)))
  }

  lemma {:induction false} ClippedAlike(requests: seq<Request>, window: nat, lo: int, hi: int, most: nat)
    ensures State(Clip(requests, lo, hi, most), window) == State(requests, window)
    ensures AllowedDuring(Clip(requests, lo, hi, most), window, lo, hi) == AllowedDuring(requests, window, lo, hi)
  {
    if requests != [] {
      var init, clipped := requests[..|requests| - 1], Clip(requests, lo, hi, most);
      ClippedAlike(init, window, lo, hi, most);
      assert clipped[..|clipped| - 1] == Clip(init, lo, hi, most);
    }
  }

  /** Only the limits in force during the interval matter. */
  lemma IntervalBound(requests: seq<Request>, window: nat, most: nat, from: int)
    requires Monotone(requests) && window > 0
    requires forall r :: r in requests && from <= r.time < from + window ==> r.limit <= most
    ensures AllowedDuring(requests, window, from, from + window) <= WorstCase(most, window)
  {
    var clipped := Clip(requests, from, from + window, most);
    ClippedAlike(requests, window, from, from + window, most);
    forall r | r in clipped ensures r.limit <= most {
      var i :| 0 <= i < |clipped| && clipped[i] == r;
      assert requests[i] in requests;
    }
    RateBound(clipped, window, most, 0, from);
  }

  // ---- The bound is exact ----

  /** `n` requests at the same time. */
  function Burst(n: nat, time: int, limit: int): seq<Request> {
    seq(n, _ => Request(time, limit))
  }

  /** A burst inside an open window is counted there, and allowed as far as the limit goes. */
  lemma {:induction false} BurstInWindow(requests: seq<Request>, window: nat, n: nat, time: int, limit: nat,
      lo: int, hi: int)
    requires State(requests, window).Some? && State(requests, window).value.expiresAt > time
    requires State(requests, window).value.count + n <= limit && lo <= time < hi
    ensures State(requests + Burst(n, time, limit), window)
         == Some(State(requests, window).value.(count := State(requests, window).value.count + n))
    ensures AllowedDuring(requests + Burst(n, time, limit), window, lo, hi)
         == AllowedDuring(requests, window, lo, hi) + n
  {
    if n == 0 {
      assert requests + Burst(n, time, limit) == requests;
    } else {
      BurstInWindow(requests, window, n - 1, time, limit, lo, hi);
      var all := requests + Burst(n, time, limit);
      assert all[..|all| - 1] == requests + Burst(n - 1, time, limit);
      assert all[|all| - 1] == Request(time, limit);
    }
  }

  /** A request that opens a window is allowed. */
  lemma OpeningRequest(requests: seq<Request>, window: nat, time: int, limit: nat, lo: int, hi: int)
    requires State(requests, window).None? || State(requests, window).value.expiresAt <= time
    requires limit >= 1
    ensures State(requests + [Request(time, limit)], window) == Some(Counter(1, time + window))
    ensures AllowedDuring(requests + [Request(time, limit)], window, lo, hi)
         == AllowedDuring(requests, window, lo, hi) + if lo <= time < hi then 1 else 0
  {
    var all := requests + [Request(time, limit)];
    assert all[..|requests|] == requests;
  }

  /** The requests, all under this limit, with `n` allowed in the window length from `from`. */
  ghost predicate Reaches(requests: seq<Request>, limit: nat, window: nat, from: int, n: nat) {
    && Monotone(requests) && (forall i :: 0 <= i < |requests| ==> requests[i].limit <= limit)
    && AllowedDuring(requests, window, from, from + window) == n
  }

  /** One request opens a window, the rest of the limit comes at its very end, and a full limit
      right after it. */
  function Straddling(limit: nat, window: nat): seq<Request> {
    seq(2 * limit, i => Request(if i == 0 then 0 else if i < limit then window - 1 else window, limit))
  }

  lemma StraddlingParts(limit: nat, window: nat)
    requires limit >= 1
    ensures Straddling(limit, window) == [Request(0, limit)] + Burst(limit - 1, window - 1, limit)
                                           + [Request(window, limit)] + Burst(limit - 1, window, limit)
  {
  }

  /** The first half: of a window opened too early, all but the opening request count. */
  lemma LateHalf(limit: nat, window: nat)
    requires limit >= 1 && window >= 2
    ensures var late := [Request(0, limit)] + Burst(limit - 1, window - 1, limit);
            && State(late, window) == Some(Counter(limit, window))
            && AllowedDuring(late, window, window - 1, 2 * window - 1) == limit - 1
  {
    var lo, hi := window - 1, 2 * window - 1;
    var first := [Request(0, limit)];
    assert [] + first == first;
    OpeningRequest([], window, 0, limit, lo, hi);
    BurstInWindow(first, window, limit - 1, window - 1, limit, lo, hi);
  }

  lemma SecondHalf(late: seq<Request>, limit: nat, window: nat, lo: int, hi: int)
    requires limit >= 1 && window > 0 && lo <= window < hi
    requires State(late, window) == Some(Counter(limit, window))
    ensures AllowedDuring(late + [Request(window, limit)] + Burst(limit - 1, window, limit), window, lo, hi)
         == AllowedDuring(late, window, lo, hi) + limit
  {
    OpeningRequest(late, window, window, limit, lo, hi);
    BurstInWindow(late + [Request(window, limit)], window, limit - 1, window, limit, lo, hi);
  }

  lemma StraddlingReachesIt(limit: nat, window: nat)
    requires limit >= 1 && window >= 2
    ensures Reaches(Straddling(limit, window), limit, window, window - 1, 2 * limit - 1)
  {
    LateHalf(limit, window);
    SecondHalf([Request(0, limit)] + Burst(limit - 1, window - 1, limit), limit, window, window - 1, 2 * window - 1);
    StraddlingParts(limit, window);
  }

  lemma BurstReachesIt(limit: nat)
    requires limit >= 1
    ensures Reaches(Burst(limit, 0, limit), limit, 1, 0, limit)
  {
    var first := [Request(0, limit)];
    assert [] + first == first;
    OpeningRequest([], 1, 0, limit, 0, 1);
    BurstInWindow(first, 1, limit - 1, 0, limit, 0, 1);
    assert first + Burst(limit - 1, 0, limit) == Burst(limit, 0, limit);
  }

  /** For every limit and window length some requests reach the worst case. */
  lemma RateBoundIsTight(limit: nat, window: nat)
    requires window > 0
    ensures exists requests, from :: Reaches(requests, limit, window, from, WorstCase(limit, window))
  {
    if limit == 0 {
      assert Reaches([], limit, window, 0, WorstCase(limit, window));
    } else if window == 1 {
      BurstReachesIt(limit);
      assert Reaches(Burst(limit, 0, limit), limit, window, 0, WorstCase(limit, window));
    } else {
      StraddlingReachesIt(limit, window);
      assert Reaches(Straddling(limit, window), limit, window, window - 1, WorstCase(limit, window));
    }
  }

  /** What the reported remainder means: of `n` more requests in the same window and under the same
      limit, the last is still allowed exactly if n is at most the remainder. */
  lemma RemainingIsExact(requests: seq<Request>, window: nat, n: nat, time: int)
    requires requests != [] && n > 0 && State(requests, window).value.expiresAt > time
    requires LastAllowed(requests, window)
    ensures var last := requests[|requests| - 1];
            var remaining := Verdict(State(requests, window).value, last.time, last.limit).remaining;
            LastAllowed(requests + Burst(n, time, last.limit), window) <==> n <= remaining
  {
    var limit := requests[|requests| - 1].limit;
    var burst := Burst(n, time, limit);
    SameWindow(requests, window, burst);
    assert (requests + burst)[|requests + burst| - 1] == Request(time, limit);
  }

  // ---- The reported wait ----

  /** When the client told to come back after `retryAfter` seconds is back. */
  function BackAt(requests: seq<Request>, window: nat): int
    requires requests != []
  {
    var last := requests[|requests| - 1];
    last.time + Verdict(State(requests, window).value, last.time, last.limit).retryAfter * SECOND
  }

  /** The reported wait is rounded to seconds, so it ends within half a second of the window:
      not before it exactly when the remaining time was rounded up or was whole. */
  lemma WaitEndsNearTheWindow(requests: seq<Request>, window: nat)
    requires Monotone(requests) && requests != [] && window > 0
    ensures var end, left := State(requests, window).value.expiresAt,
                             State(requests, window).value.expiresAt - requests[|requests| - 1].time;
            && -(SECOND / 2) < BackAt(requests, window) - end <= SECOND / 2
            && (BackAt(requests, window) >= end <==> left % SECOND == 0 || left % SECOND >= SECOND / 2)
  {
    ExpiryAhead(requests, window);
  }

  /** A denied client that comes back as told, whoever else asked before the window ended and
      nobody since: if the wait reached the end of the window it is allowed exactly when the
      limit is at least one; if the wait was rounded down it is denied again, unless the limit
      has been raised above the requests counted by then. */
  lemma RetryAfter(requests: seq<Request>, window: nat, meanwhile: seq<Request>, limit: int)
    requires Monotone(requests) && requests != [] && window > 0
    requires !LastAllowed(requests, window)
    requires forall r :: r in meanwhile ==> r.time < State(requests, window).value.expiresAt
    ensures var end, back := State(requests, window).value.expiresAt, BackAt(requests, window);
            var again := requests + meanwhile + [Request(back, limit)];
            && State(requests + meanwhile, window).Some?
            && (LastAllowed(again, window) <==>
                  if back >= end then limit >= 1 else State(requests + meanwhile, window).value.count < limit)
            && (back < end && limit <= requests[|requests| - 1].limit ==> !LastAllowed(again, window))
  {
    SameWindow(requests, window, meanwhile);
    var again := requests + meanwhile + [Request(BackAt(requests, window), limit)];
    assert again[..|again| - 1] == requests + meanwhile;
  }

  /** Requests before the end of a window leave its end where it is. */
  lemma {:induction false} SameWindow(requests: seq<Request>, window: nat, more: seq<Request>)
    requires requests != []
    requires forall r :: r in more ==> r.time < State(requests, window).value.expiresAt
    ensures State(requests + more, window).Some?
    ensures State(requests + more, window).value.expiresAt == State(requests, window).value.expiresAt
    ensures State(requests + more, window).value.count == State(requests, window).value.count + |more|
  {
    if more == [] {
      assert requests + more == requests;
    } else {
      var init := more[..|more| - 1];
      SameWindow(requests, window, init);
      assert (requests + more)[..|requests + more| - 1] == requests + init;
    }
  }
}
