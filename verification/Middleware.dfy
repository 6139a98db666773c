/** The middleware that drives the rate limiter with live settings
    (backend/app/middleware/rate_limit.py). */
module Middleware {
  import opened Bytes
  import opened RateLimit

  // ---- Settings cache ----

  /** A cached value and when the entry stops being used. */
  type Cache = map<string, (int, int)>

  /** The value a key had in the settings table (or its default) at each time. */
  type History = (string, int) -> int

  /** Every entry is the stored value of some past time, usable only until one time to live
      after that. */
  ghost predicate CacheInv(cache: Cache, ttl: nat, stored: History, time: int) {
    forall key :: key in cache ==> exists t :: t <= time && cache[key].0 == stored(key, t) && cache[key].1 <= t + ttl
  }

  class SettingsCache {
    var cache: Cache
    const ttl: nat

    constructor (ttl: nat)
      ensures cache == map[] && this.ttl == ttl
    {
      cache, this.ttl := map[], ttl;
    }

    /** Looks up at time `now`; on a miss the database answers at some time `answered` no
        earlier. The limit returned is the stored value of a time less than one time to
        live before, or of the database's answer. */
    method GetIntCached(key: string, now: int, answered: int, stored: History, ghost last: int) returns (v: int)
      requires last <= now <= answered && CacheInv(cache, ttl, stored, last)
      modifies this
      ensures CacheInv(cache, ttl, stored, answered)
      ensures v == stored(key, answered) || exists t :: t <= now < t + ttl && v == stored(key, t)
      ensures if key in old(cache) && old(cache)[key].1 > now
              then v == old(cache)[key].0 && cache == old(cache)
              else v == stored(key, answered) && cache == old(cache)[key := (v, now + ttl)]
    {
      if key in cache && cache[key].1 > now {
        return cache[key].0;
      }
      v := stored(key, answered);
      cache := cache[key := (v, now + ttl)];
      assert answered <= answered && cache[key].0 == stored(key, answered) && cache[key].1 <= answered + ttl;
    }
  }

  // ---- The policy loop ----

  datatype Bucket = Bucket(key: string, limit: int, seconds: nat) {
    function Window(): nat {
      seconds * SECOND
    }
  }

  /** Consuming a policy's buckets in order until one denies: the counters afterwards, and
      the denial if any. */
  function ConsumeAll(counters: Counters, policy: seq<Bucket>, now: int): (Counters, Option<RateCheck>)
    decreases |policy|
  {
    if policy == [] then (counters, None)
    else
      var b := policy[0];
      var hit := Hit(Lookup(counters, b.key), now, b.Window());
      var check := Verdict(hit, now, b.limit);
      if !check.allowed then (counters[b.key := hit], Some(check))
      else ConsumeAll(counters[b.key := hit], policy[1..], now)
  }

  method CheckPolicy(limiter: RateLimiter, policy: seq<Bucket>, now: int) returns (denial: Option<RateCheck>)
    modifies limiter
    ensures (limiter.counters, denial) == ConsumeAll(old(limiter.counters), policy, now)
    ensures DistinctKeys(policy) ==>
              (denial.None? <==> forall b :: b in policy ==> Allows(old(limiter.counters), b, now))
  {
    if DistinctKeys(policy) {
      PolicyMeaning(limiter.counters, policy, now);
      AllowedPrefixMeaning(limiter.counters, policy, now);
    }
    assert policy[0..] == policy;
    for i := 0 to |policy|
      invariant ConsumeAll(old(limiter.counters), policy, now) == ConsumeAll(limiter.counters, policy[i..], now)
    {
      assert policy[i..][0] == policy[i] && policy[i..][1..] == policy[i + 1..];
      var check := limiter.Consume(policy[i].key, policy[i].limit, policy[i].seconds, now);
      if !check.allowed {
        return Some(check);
      }
    }
    return None;
  }

  predicate Allows(counters: Counters, b: Bucket, now: int) {
    Verdict(Hit(Lookup(counters, b.key), now, b.Window()), now, b.limit).allowed
  }

  /** How many buckets allow the request before the first that does not. */
  function AllowedPrefix(counters: Counters, policy: seq<Bucket>, now: int): (n: nat)
    ensures n <= |policy|
    decreases |policy|
  {
    if policy == [] || !Allows(counters, policy[0], now) then 0 else 1 + AllowedPrefix(counters, policy[1..], now)
  }

  ghost predicate DistinctKeys(policy: seq<Bucket>) {
    forall i, j :: 0 <= i < j < |policy| ==> policy[i].key != policy[j].key
  }

  lemma {:induction false} AllowedPrefixAgrees(counters: Counters, other: Counters, policy: seq<Bucket>, now: int)
    requires forall b :: b in policy ==> Lookup(counters, b.key) == Lookup(other, b.key)
    ensures AllowedPrefix(counters, policy, now) == AllowedPrefix(other, policy, now)
    decreases |policy|
  {
    if policy != [] {
      assert policy[0] in policy;
      AllowedPrefixAgrees(counters, other, policy[1..], now);
    }
  }

  /** With distinct keys a request is forwarded exactly when every bucket would allow it on
      its own. The buckets up to and including the first that denies are each counted
      once; the ones after it, and every other key, are not touched. */
  lemma {:induction false} PolicyMeaning(counters: Counters, policy: seq<Bucket>, now: int)
    requires DistinctKeys(policy)
    ensures ConsumeAll(counters, policy, now).1.None? <==> AllowedPrefix(counters, policy, now) == |policy|
    ensures forall i :: 0 <= i < |policy| ==>
              Lookup(ConsumeAll(counters, policy, now).0, policy[i].key) ==
                if i <= AllowedPrefix(counters, policy, now)
                then Some(Hit(Lookup(counters, policy[i].key), now, policy[i].Window()))
                else Lookup(counters, policy[i].key)
    ensures forall key :: (forall i :: 0 <= i < |policy| ==> policy[i].key != key) ==>
              Lookup(ConsumeAll(counters, policy, now).0, key) == Lookup(counters, key)
    decreases |policy|
  {
    if policy != [] {
      var b, rest := policy[0], policy[1..];
      var next := counters[b.key := Hit(Lookup(counters, b.key), now, b.Window())];
      forall i | 0 <= i < |rest|
        ensures rest[i].key != b.key && Lookup(next, rest[i].key) == Lookup(counters, rest[i].key)
      {
        assert rest[i] == policy[i + 1];
      }
      if Allows(counters, b, now) {
        AllowedPrefixAgrees(counters, next, rest, now);
        PolicyMeaning(next, rest, now);
        forall i | 0 < i < |policy|
          ensures Lookup(ConsumeAll(counters, policy, now).0, policy[i].key) ==
                    if i <= AllowedPrefix(counters, policy, now)
                    then Some(Hit(Lookup(counters, policy[i].key), now, policy[i].Window()))
                    else Lookup(counters, policy[i].key)
        {
          assert policy[i] == rest[i - 1];
        }
        forall key | forall i :: 0 <= i < |policy| ==> policy[i].key != key
          ensures Lookup(ConsumeAll(counters, policy, now).0, key) == Lookup(counters, key)
        {
          assert policy[0].key != key;
          forall i | 0 <= i < |rest| ensures rest[i].key != key {
            assert rest[i] == policy[i + 1];
          }
        }
      }
    }
  }

  /** A denial is the verdict of the first bucket that does not allow the request. */
  lemma FirstDenial(counters: Counters, policy: seq<Bucket>, now: int)
    requires DistinctKeys(policy)
    ensures ConsumeAll(counters, policy, now).1.Some? ==>
              exists b :: b in policy && !Allows(counters, b, now) && b.key in ConsumeAll(counters, policy, now).0
                && var check := ConsumeAll(counters, policy, now).1.value;
                   && !check.allowed && check.remaining == 0
                   && check.retryAfter ==
                        Max((ConsumeAll(counters, policy, now).0[b.key].expiresAt - now + 500) / 1000, 0)
  {
    PolicyMeaning(counters, policy, now);
    var n := AllowedPrefix(counters, policy, now);
    if n < |policy| {
      DenialIsVerdict(counters, policy, now);
      var b := policy[n];
      DeniedAtPrefix(counters, policy, now);
      assert b in policy;
      assert Lookup(ConsumeAll(counters, policy, now).0, b.key) == Some(Hit(Lookup(counters, b.key), now, b.Window()));
    }
  }

  lemma {:induction false} DenialIsVerdict(counters: Counters, policy: seq<Bucket>, now: int)
    requires DistinctKeys(policy) && AllowedPrefix(counters, policy, now) < |policy|
    ensures var b := policy[AllowedPrefix(counters, policy, now)];
            ConsumeAll(counters, policy, now).1
              == Some(Verdict(Hit(Lookup(counters, b.key), now, b.Window()), now, b.limit))
    decreases |policy|
  {
    var b, rest := policy[0], policy[1..];
    if Allows(counters, b, now) {
      var next := counters[b.key := Hit(Lookup(counters, b.key), now, b.Window())];
      forall i | 0 <= i < |rest| ensures Lookup(next, rest[i].key) == Lookup(counters, rest[i].key) {
        assert rest[i] == policy[i + 1];
      }
      AllowedPrefixAgrees(counters, next, rest, now);
      DenialIsVerdict(next, rest, now);
    }
  }

  lemma {:induction false} DeniedAtPrefix(counters: Counters, policy: seq<Bucket>, now: int)
    requires AllowedPrefix(counters, policy, now) < |policy|
    ensures !Allows(counters, policy[AllowedPrefix(counters, policy, now)], now)
    decreases |policy|
  {
    if Allows(counters, policy[0], now) {
      DeniedAtPrefix(counters, policy[1..], now);
    }
  }

  /** In the words of the previous lemma: all buckets allow exactly when each one does. */
  lemma {:induction false} AllowedPrefixMeaning(counters: Counters, policy: seq<Bucket>, now: int)
    ensures AllowedPrefix(counters, policy, now) == |policy| <==> forall b :: b in policy ==> Allows(counters, b, now)
    decreases |policy|
  {
    if policy != [] {
      AllowedPrefixMeaning(counters, policy[1..], now);
      assert policy[0] in policy;
      assert forall b :: b in policy <==> b == policy[0] || b in policy[1..];
    }
  }

  // ---- Every run of requests from all clients ----

  const HOUR := 3600
  const DAY := 86400

  /** A request the middleware limits, under the settings it read for it. */
  datatype Call =
    | UploadCall(ip: string, time: int, hourly: int, daily: int)
    | DownloadCall(ip: string, time: int, hourly: int)

  function UploadHour(ip: string): string { "rl:u:h:" + ip }

  function UploadDay(ip: string): string { "rl:u:d:" + ip }

  function DownloadHour(ip: string): string { "rl:d:h:" + ip }

  function Policy(call: Call): seq<Bucket> {
    match call
    case UploadCall(ip, _, hourly, daily) =>
      [Bucket(UploadHour(ip), hourly, HOUR), Bucket(UploadDay(ip), daily, DAY)]
    case DownloadCall(ip, _, hourly) => [Bucket(DownloadHour(ip), hourly, HOUR)]
  }

  lemma KeysDiffer(a: string, b: string)
    ensures UploadHour(a) != UploadDay(b) && UploadHour(a) != DownloadHour(b) && UploadDay(a) != DownloadHour(b)
    ensures a != b ==>
              UploadHour(a) != UploadHour(b) && UploadDay(a) != UploadDay(b) && DownloadHour(a) != DownloadHour(b)
  {
    assert UploadHour(a)[3] == 'u' && UploadDay(a)[3] == 'u' && DownloadHour(b)[3] == 'd';
    assert UploadHour(a)[5] == 'h' && UploadDay(b)[5] == 'd';
    assert UploadHour(a)[7..] == a && UploadDay(a)[7..] == a && DownloadHour(a)[7..] == a;
    assert UploadHour(b)[7..] == b && UploadDay(b)[7..] == b && DownloadHour(b)[7..] == b;
  }

  function CountersAfter(calls: seq<Call>): Counters {
    if calls == [] then map[]
    else
      var last := calls[|calls| - 1];
      ConsumeAll(CountersAfter(calls[..|calls| - 1]), Policy(last), last.time).0
  }

  /** The last call got through to the application. */
  predicate Forwarded(calls: seq<Call>)
    requires calls != []
  {
    var last := calls[|calls| - 1];
    ConsumeAll(CountersAfter(calls[..|calls| - 1]), Policy(last), last.time).1.None?
  }

  /** How many of a client's uploads got through at a time in [lo, hi). */
  function UploadsDuring(calls: seq<Call>, ip: string, lo: int, hi: int): nat {
    if calls == [] then 0
    else
      var last := calls[|calls| - 1];
      UploadsDuring(calls[..|calls| - 1], ip, lo, hi)
        + if last.UploadCall? && last.ip == ip && lo <= last.time < hi && Forwarded(calls) then 1 else 0
  }

  function DownloadsDuring(calls: seq<Call>, ip: string, lo: int, hi: int): nat {
    if calls == [] then 0
    else
      var last := calls[|calls| - 1];
      DownloadsDuring(calls[..|calls| - 1], ip, lo, hi)
        + if last.DownloadCall? && last.ip == ip && lo <= last.time < hi && Forwarded(calls) then 1 else 0
  }

  /** What a client's download counter sees: all its downloads. */
  function DownloadRequests(calls: seq<Call>, ip: string): seq<Request> {
    if calls == [] then []
    else
      var init, last := DownloadRequests(calls[..|calls| - 1], ip), calls[|calls| - 1];
      if last.DownloadCall? && last.ip == ip then init + [Request(last.time, last.hourly)] else init
  }

  /** What a client's hourly counter sees: all its uploads. */
  function HourlyRequests(calls: seq<Call>, ip: string): seq<Request> {
    if calls == [] then []
    else
      var init, last := HourlyRequests(calls[..|calls| - 1], ip), calls[|calls| - 1];
      if last.UploadCall? && last.ip == ip then init + [Request(last.time, last.hourly)] else init
  }

  /** What its daily counter sees: only the uploads its hourly counter let through. */
  function DailyRequests(calls: seq<Call>, ip: string): seq<Request> {
    if calls == [] then []
    else
      var init, last := DailyRequests(calls[..|calls| - 1], ip), calls[|calls| - 1];
      if last.UploadCall? && last.ip == ip && LastAllowed(HourlyRequests(calls, ip), HOUR * SECOND)
      then init + [Request(last.time, last.daily)] else init
  }

  /** The policy of two buckets, written out. */
  lemma TwoBuckets(counters: Counters, a: Bucket, b: Bucket, now: int)
    requires a.key != b.key
    ensures var hit := counters[a.key := Hit(Lookup(counters, a.key), now, a.Window())];
            var (after, denial) := ConsumeAll(counters, [a, b], now);
            if !Allows(counters, a, now) then after == hit && denial.Some?
            else
              && after == hit[b.key := Hit(Lookup(counters, b.key), now, b.Window())]
              && (denial.None? <==> Allows(counters, b, now))
  {
    assert [a, b][1..] == [b] && [b][1..] == [];
    var hit := counters[a.key := Hit(Lookup(counters, a.key), now, a.Window())];
    assert Lookup(hit, b.key) == Lookup(counters, b.key);
    assert ConsumeAll(hit[b.key := Hit(Lookup(hit, b.key), now, b.Window())], [], now).1.None?;
  }

  lemma OneBucket(counters: Counters, a: Bucket, now: int)
    ensures ConsumeAll(counters, [a], now).0 == counters[a.key := Hit(Lookup(counters, a.key), now, a.Window())]
    ensures ConsumeAll(counters, [a], now).1.None? <==> Allows(counters, a, now)
  {
    assert [a][1..] == [];
    assert ConsumeAll(counters[a.key := Hit(Lookup(counters, a.key), now, a.Window())], [], now).1.None?;
  }

  /** Each counter of a client is in the state its own requests put it in, whatever the other
      counters and the other clients do; an upload is forwarded exactly when both allow it. */
  lemma {:induction false} CountersAgree(calls: seq<Call>, ip: string)
    ensures Lookup(CountersAfter(calls), UploadHour(ip)) == State(HourlyRequests(calls, ip), HOUR * SECOND)
    ensures Lookup(CountersAfter(calls), UploadDay(ip)) == State(DailyRequests(calls, ip), DAY * SECOND)
    ensures calls != [] && calls[|calls| - 1].UploadCall? && calls[|calls| - 1].ip == ip ==>
              (Forwarded(calls) <==>
                 && LastAllowed(HourlyRequests(calls, ip), HOUR * SECOND)
                 && LastAllowed(DailyRequests(calls, ip), DAY * SECOND))
  {
    if calls != [] {
      var init, last := calls[..|calls| - 1], calls[|calls| - 1];
      CountersAgree(init, ip);
      KeysDiffer(ip, last.ip);
      KeysDiffer(last.ip, ip);
      KeysDiffer(last.ip, last.ip);
      var counters := CountersAfter(init);
      match last
      case UploadCall(_, time, hourly, daily) =>
        TwoBuckets(counters, Policy(last)[0], Policy(last)[1], time);
        if last.ip == ip {
          OwnUpload(calls, ip);
        }
      case DownloadCall(_, time, hourly) => OneBucket(counters, Policy(last)[0], time);
    }
  }

  /** The same for the download counter. */
  lemma {:induction false} DownloadCounterAgrees(calls: seq<Call>, ip: string)
    ensures Lookup(CountersAfter(calls), DownloadHour(ip)) == State(DownloadRequests(calls, ip), HOUR * SECOND)
    ensures calls != [] && calls[|calls| - 1].DownloadCall? && calls[|calls| - 1].ip == ip ==>
              (Forwarded(calls) <==> LastAllowed(DownloadRequests(calls, ip), HOUR * SECOND))
  {
    if calls != [] {
      var init, last := calls[..|calls| - 1], calls[|calls| - 1];
      DownloadCounterAgrees(init, ip);
      KeysDiffer(ip, last.ip);
      KeysDiffer(last.ip, ip);
      KeysDiffer(last.ip, last.ip);
      var counters := CountersAfter(init);
      match last
      case UploadCall(_, time, hourly, daily) => TwoBuckets(counters, Policy(last)[0], Policy(last)[1], time);
      case DownloadCall(_, time, hourly) =>
        OneBucket(counters, Policy(last)[0], time);
        if last.ip == ip {
          var requests := DownloadRequests(calls, ip);
          assert requests[..|requests| - 1] == DownloadRequests(init, ip);
        }
    }
  }

  lemma OwnUpload(calls: seq<Call>, ip: string)
    requires calls != [] && calls[|calls| - 1].UploadCall? && calls[|calls| - 1].ip == ip
    requires var init := calls[..|calls| - 1];
             && Lookup(CountersAfter(init), UploadHour(ip)) == State(HourlyRequests(init, ip), HOUR * SECOND)
             && Lookup(CountersAfter(init), UploadDay(ip)) == State(DailyRequests(init, ip), DAY * SECOND)
    ensures var counters, last := CountersAfter(calls[..|calls| - 1]), calls[|calls| - 1];
            && State(HourlyRequests(calls, ip), HOUR * SECOND)
                 == Some(Hit(Lookup(counters, UploadHour(ip)), last.time, HOUR * SECOND))
            && (LastAllowed(HourlyRequests(calls, ip), HOUR * SECOND) <==> Allows(counters, Policy(last)[0], last.time))
            && (Allows(counters, Policy(last)[0], last.time) ==>
                  && State(DailyRequests(calls, ip), DAY * SECOND)
                       == Some(Hit(Lookup(counters, UploadDay(ip)), last.time, DAY * SECOND))
                  && (LastAllowed(DailyRequests(calls, ip), DAY * SECOND) <==>
                        Allows(counters, Policy(last)[1], last.time)))
  {
    var init, last := calls[..|calls| - 1], calls[|calls| - 1];
    var hourly, daily := HourlyRequests(calls, ip), DailyRequests(calls, ip);
    assert hourly[..|hourly| - 1] == HourlyRequests(init, ip);
    if LastAllowed(hourly, HOUR * SECOND) {
      assert daily[..|daily| - 1] == DailyRequests(init, ip);
    }
  }

  lemma AllowedSnoc(requests: seq<Request>, last: Request, window: nat, lo: int, hi: int)
    ensures AllowedDuring(requests + [last], window, lo, hi)
         == AllowedDuring(requests, window, lo, hi)
              + if lo <= last.time < hi && LastAllowed(requests + [last], window) then 1 else 0
  {
    assert (requests + [last])[..|requests|] == requests;
  }

  /** Every upload forwarded was allowed by its hourly counter. */
  lemma {:induction false} UploadsAllowedHourly(calls: seq<Call>, ip: string, lo: int, hi: int)
    ensures UploadsDuring(calls, ip, lo, hi) <= AllowedDuring(HourlyRequests(calls, ip), HOUR * SECOND, lo, hi)
  {
    if calls != [] {
      var init, last := calls[..|calls| - 1], calls[|calls| - 1];
      UploadsAllowedHourly(init, ip, lo, hi);
      if last.UploadCall? && last.ip == ip {
        CountersAgree(calls, ip);
        AllowedSnoc(HourlyRequests(init, ip), Request(last.time, last.hourly), HOUR * SECOND, lo, hi);
      }
    }
  }

  /** The uploads forwarded are exactly those allowed by the daily counter. */
  lemma {:induction false} UploadsAllowedDaily(calls: seq<Call>, ip: string, lo: int, hi: int)
    ensures UploadsDuring(calls, ip, lo, hi) == AllowedDuring(DailyRequests(calls, ip), DAY * SECOND, lo, hi)
  {
    if calls != [] {
      var init, last := calls[..|calls| - 1], calls[|calls| - 1];
      UploadsAllowedDaily(init, ip, lo, hi);
      if last.UploadCall? && last.ip == ip {
        CountersAgree(calls, ip);
        if LastAllowed(HourlyRequests(calls, ip), HOUR * SECOND) {
          assert DailyRequests(calls, ip) == DailyRequests(init, ip) + [Request(last.time, last.daily)];
          AllowedSnoc(DailyRequests(init, ip), Request(last.time, last.daily), DAY * SECOND, lo, hi);
        } else {
          assert DailyRequests(calls, ip) == DailyRequests(init, ip) && !Forwarded(calls);
        }
      } else {
        assert DailyRequests(calls, ip) == DailyRequests(init, ip);
      }
    }
  }

  lemma {:induction false} DownloadsAllowed(calls: seq<Call>, ip: string, lo: int, hi: int)
    ensures DownloadsDuring(calls, ip, lo, hi) == AllowedDuring(DownloadRequests(calls, ip), HOUR * SECOND, lo, hi)
  {
    if calls != [] {
      var init, last := calls[..|calls| - 1], calls[|calls| - 1];
      DownloadsAllowed(init, ip, lo, hi);
      if last.DownloadCall? && last.ip == ip {
        DownloadCounterAgrees(calls, ip);
        assert DownloadRequests(calls, ip) == DownloadRequests(init, ip) + [Request(last.time, last.hourly)];
        AllowedSnoc(DownloadRequests(init, ip), Request(last.time, last.hourly), HOUR * SECOND, lo, hi);
      } else {
        assert DownloadRequests(calls, ip) == DownloadRequests(init, ip);
      }
    }
  }

  predicate InOrder(calls: seq<Call>) {
    forall i, j :: 0 <= i <= j < |calls| ==> calls[i].time <= calls[j].time
  }

  /** The requests come in order, none after the last call. */
  ghost predicate Orderly(requests: seq<Request>, calls: seq<Call>) {
    && Monotone(requests)
    && (forall r :: r in requests ==> calls != [] && r.time <= calls[|calls| - 1].time)
  }

  lemma StillOrderly(requests: seq<Request>, calls: seq<Call>, limit: int)
    requires InOrder(calls) && calls != [] && Orderly(requests, calls[..|calls| - 1])
    ensures Orderly(requests, calls)
    ensures Orderly(requests + [Request(calls[|calls| - 1].time, limit)], calls)
  {
    var init, last := calls[..|calls| - 1], calls[|calls| - 1];
    assert init != [] ==> init[|init| - 1] == calls[|calls| - 2];
    var more := requests + [Request(last.time, limit)];
    forall i, j | 0 <= i <= j < |more| ensures more[i].time <= more[j].time {
      assert i < |requests| ==> requests[i] in requests;
    }
  }

  /** The limits under which a client's calls came in [lo, hi). */
  predicate HourlyUpTo(calls: seq<Call>, ip: string, lo: int, hi: int, most: nat) {
    forall i :: 0 <= i < |calls| && calls[i].UploadCall? && calls[i].ip == ip && lo <= calls[i].time < hi ==>
      calls[i].hourly <= most
  }

  predicate DailyUpTo(calls: seq<Call>, ip: string, lo: int, hi: int, most: nat) {
    forall i :: 0 <= i < |calls| && calls[i].UploadCall? && calls[i].ip == ip && lo <= calls[i].time < hi ==>
      calls[i].daily <= most
  }

  predicate DownloadsUpTo(calls: seq<Call>, ip: string, lo: int, hi: int, most: nat) {
    forall i :: 0 <= i < |calls| && calls[i].DownloadCall? && calls[i].ip == ip && lo <= calls[i].time < hi ==>
      calls[i].hourly <= most
  }

  ghost predicate WithinLimit(requests: seq<Request>, lo: int, hi: int, most: nat) {
    forall r :: r in requests && lo <= r.time < hi ==> r.limit <= most
  }

  lemma {:induction false} HourlyInOrder(calls: seq<Call>, ip: string, lo: int, hi: int, most: nat)
    requires InOrder(calls) && HourlyUpTo(calls, ip, lo, hi, most)
    ensures Orderly(HourlyRequests(calls, ip), calls) && WithinLimit(HourlyRequests(calls, ip), lo, hi, most)
  {
    if calls != [] {
      var init, last := calls[..|calls| - 1], calls[|calls| - 1];
      HourlyInOrder(init, ip, lo, hi, most);
      StillOrderly(HourlyRequests(init, ip), calls, last.hourly);
    }
  }

  lemma {:induction false} DailyInOrder(calls: seq<Call>, ip: string, lo: int, hi: int, most: nat)
    requires InOrder(calls) && DailyUpTo(calls, ip, lo, hi, most)
    ensures Orderly(DailyRequests(calls, ip), calls) && WithinLimit(DailyRequests(calls, ip), lo, hi, most)
  {
    if calls != [] {
      var init, last := calls[..|calls| - 1], calls[|calls| - 1];
      DailyInOrder(init, ip, lo, hi, most);
      StillOrderly(DailyRequests(init, ip), calls, if last.UploadCall? then last.daily else 0);
    }
  }

  lemma {:induction false} DownloadsInOrder(calls: seq<Call>, ip: string, lo: int, hi: int, most: nat)
    requires InOrder(calls) && DownloadsUpTo(calls, ip, lo, hi, most)
    ensures Orderly(DownloadRequests(calls, ip), calls) && WithinLimit(DownloadRequests(calls, ip), lo, hi, most)
  {
    if calls != [] {
      var init, last := calls[..|calls| - 1], calls[|calls| - 1];
      DownloadsInOrder(init, ip, lo, hi, most);
      StillOrderly(DownloadRequests(init, ip), calls, last.hourly);
    }
  }

  /** Over every run of uploads and downloads from all clients, with limits varying over time:
      within any hour a client gets at most the worst case of the hourly limits it met in that
      hour through, and within any day at most the worst case of that day's daily limits. */
  lemma UploadBound(calls: seq<Call>, ip: string, hourly: nat, daily: nat, from: int)
    requires InOrder(calls)
    requires HourlyUpTo(calls, ip, from, from + 3_600_000, hourly)
    requires DailyUpTo(calls, ip, from, from + 86_400_000, daily)
    ensures UploadsDuring(calls, ip, from, from + 3_600_000) <= WorstCase(hourly, 3_600_000)
    ensures UploadsDuring(calls, ip, from, from + 86_400_000) <= WorstCase(daily, 86_400_000)
  {
    HourBound(calls, ip, hourly, from);
    DayBound(calls, ip, daily, from);
  }

  lemma HourBound(calls: seq<Call>, ip: string, hourly: nat, from: int)
    requires InOrder(calls) && HourlyUpTo(calls, ip, from, from + 3_600_000, hourly)
    ensures UploadsDuring(calls, ip, from, from + 3_600_000) <= WorstCase(hourly, 3_600_000)
  {
    HourlyInOrder(calls, ip, from, from + 3_600_000, hourly);
    UploadsAllowedHourly(calls, ip, from, from + 3_600_000);
    OrderlyBound(HourlyRequests(calls, ip), calls, hourly, 3_600_000, from);
  }

  lemma DayBound(calls: seq<Call>, ip: string, daily: nat, from: int)
    requires InOrder(calls) && DailyUpTo(calls, ip, from, from + 86_400_000, daily)
    ensures UploadsDuring(calls, ip, from, from + 86_400_000) <= WorstCase(daily, 86_400_000)
  {
    DailyInOrder(calls, ip, from, from + 86_400_000, daily);
    UploadsAllowedDaily(calls, ip, from, from + 86_400_000);
    OrderlyBound(DailyRequests(calls, ip), calls, daily, 86_400_000, from);
  }

  /** The same for downloads, which have one counter. */
  lemma DownloadBound(calls: seq<Call>, ip: string, hourly: nat, from: int)
    requires InOrder(calls) && DownloadsUpTo(calls, ip, from, from + 3_600_000, hourly)
    ensures DownloadsDuring(calls, ip, from, from + 3_600_000) <= WorstCase(hourly, 3_600_000)
  {
    DownloadsInOrder(calls, ip, from, from + 3_600_000, hourly);
    DownloadsAllowed(calls, ip, from, from + 3_600_000);
    OrderlyBound(DownloadRequests(calls, ip), calls, hourly, 3_600_000, from);
  }

  lemma OrderlyBound(requests: seq<Request>, calls: seq<Call>, most: nat, window: nat, from: int)
    requires Orderly(requests, calls) && WithinLimit(requests, from, from + window, most) && window > 0
    ensures AllowedDuring(requests, window, from, from + window) <= WorstCase(most, window)
  {
    IntervalBound(requests, window, most, from);
  }

  // ---- With the cached settings ----

  const UPLOAD_HOURLY := "rate_hourly"
  const UPLOAD_DAILY := "rate_daily"
  const DOWNLOAD_HOURLY := "rate_download_hourly"

  /** A request on its way through the middleware: it looks up its first limit at `start`, an
      upload its second one at `middle`, and the counters are consumed at `time`. */
  datatype Arrival = Arrival(upload: bool, ip: string, start: int, middle: int, time: int)

  /** Requests are handled one after the other. */
  ghost predicate Sequential(arrivals: seq<Arrival>) {
    && (forall i :: 0 <= i < |arrivals| ==> arrivals[i].start <= arrivals[i].middle <= arrivals[i].time)
    && (forall i, j :: 0 <= i < j < |arrivals| ==> arrivals[i].time <= arrivals[j].start)
  }

  /** From less than one time to live before `start` on. */
  predicate Since(t: int, start: int, ttl: nat) {
    start <= t || start - ttl < t
  }

  /** The value was stored less than one time to live before the lookups, or since. */
  ghost predicate Recent(stored: History, key: string, ttl: nat, a: Arrival, value: int) {
    exists t :: Since(t, a.start, ttl) && t <= a.time && value == stored(key, t)
  }

  /** The call a request turned into, with the limits it was judged by. */
  ghost predicate Judged(stored: History, ttl: nat, a: Arrival, call: Call) {
    && call.ip == a.ip && call.time == a.time && (call.UploadCall? <==> a.upload)
    && match call
       case UploadCall(_, _, hourly, daily) =>
         Recent(stored, UPLOAD_HOURLY, ttl, a, hourly) && Recent(stored, UPLOAD_DAILY, ttl, a, daily)
       case DownloadCall(_, _, hourly) => Recent(stored, DOWNLOAD_HOURLY, ttl, a, hourly)
  }

  ghost predicate AllJudged(stored: History, ttl: nat, arrivals: seq<Arrival>, calls: seq<Call>) {
    |calls| == |arrivals| && forall i :: 0 <= i < |calls| ==> Judged(stored, ttl, arrivals[i], calls[i])
  }

  /** Which limits a request is judged by. */
  method LookUp(cache: SettingsCache, a: Arrival, stored: History, ghost last: int) returns (call: Call)
    requires last <= a.start <= a.middle <= a.time && CacheInv(cache.cache, cache.ttl, stored, last)
    modifies cache
    ensures CacheInv(cache.cache, cache.ttl, stored, a.time) && Judged(stored, cache.ttl, a, call)
  {
    if a.upload {
      var hourly := cache.GetIntCached(UPLOAD_HOURLY, a.start, a.middle, stored, last);
      var daily := cache.GetIntCached(UPLOAD_DAILY, a.middle, a.time, stored, a.middle);
      call := UploadCall(a.ip, a.time, hourly, daily);
    } else {
      var hourly := cache.GetIntCached(DOWNLOAD_HOURLY, a.start, a.time, stored, last);
      call := DownloadCall(a.ip, a.time, hourly);
    }
  }

  /** Which of the calls were forwarded. */
  function Verdicts(calls: seq<Call>): seq<bool> {
    if calls == [] then [] else Verdicts(calls[..|calls| - 1]) + [Forwarded(calls)]
  }

  /** One request through the middleware: look up, then consume. */
  method Handle(limiter: RateLimiter, cache: SettingsCache, a: Arrival, stored: History, ghost last: int,
      ghost calls: seq<Call>)
    returns (call: Call, forwarded: bool)
    requires last <= a.start <= a.middle <= a.time && CacheInv(cache.cache, cache.ttl, stored, last)
    requires limiter.counters == CountersAfter(calls)
    modifies limiter, cache
    ensures CacheInv(cache.cache, cache.ttl, stored, a.time) && Judged(stored, cache.ttl, a, call)
    ensures limiter.counters == CountersAfter(calls + [call]) && forwarded == Forwarded(calls + [call])
  {
    call := LookUp(cache, a, stored, last);
    assert (calls + [call])[..|calls|] == calls;
    var denial := CheckPolicy(limiter, Policy(call), call.time);
    forwarded := denial.None?;
  }

  /** The middleware at work on any requests, from an empty cache and no counters: each is judged
      by recent settings, and forwarded exactly when all its counters allow it. */
  method HandleAll(arrivals: seq<Arrival>, stored: History, ttl: nat) returns (calls: seq<Call>, forwarded: seq<bool>)
    requires Sequential(arrivals)
    ensures AllJudged(stored, ttl, arrivals, calls) && forwarded == Verdicts(calls)
  {
    var limiter := new RateLimiter();
    var cache := new SettingsCache(ttl);
    calls, forwarded := [], [];
    ghost var last := if arrivals == [] then 0 else arrivals[0].start;
    for i := 0 to |arrivals|
      invariant cache.ttl == ttl && limiter.counters == CountersAfter(calls) && forwarded == Verdicts(calls)
      invariant CacheInv(cache.cache, ttl, stored, last) && (i < |arrivals| ==> last <= arrivals[i].start)
      invariant AllJudged(stored, ttl, arrivals[..i], calls)
    {
      var call, through := Handle(limiter, cache, arrivals[i], stored, last, calls);
      last := arrivals[i].time;
      assert (calls + [call])[..i] == calls;
      calls, forwarded := calls + [call], forwarded + [through];
    }
    assert arrivals[..|arrivals|] == arrivals;
  }

  /** All settings that requests consumed in an interval may have been judged by were at most
      `most`: those stored from one time to live, and the longest a request takes, before it. */
  ghost predicate SettingUpTo(stored: History, key: string, ttl: nat, delay: nat, from: int, window: nat, most: nat) {
    forall t :: Since(t, from - delay, ttl) && t < from + window ==> stored(key, t) <= most
  }

  ghost predicate Prompt(arrivals: seq<Arrival>, delay: nat) {
    forall i :: 0 <= i < |arrivals| ==> arrivals[i].time - arrivals[i].start <= delay
  }

  lemma RecentUpTo(stored: History, key: string, ttl: nat, delay: nat, from: int, window: nat, most: nat,
      a: Arrival, value: int)
    requires SettingUpTo(stored, key, ttl, delay, from, window, most) && Recent(stored, key, ttl, a, value)
    requires a.time - a.start <= delay && from <= a.time < from + window
    ensures value <= most
  {
  }

  lemma JudgedInOrder(stored: History, ttl: nat, arrivals: seq<Arrival>, calls: seq<Call>)
    requires Sequential(arrivals) && AllJudged(stored, ttl, arrivals, calls)
    ensures InOrder(calls)
  {
    forall i, j | 0 <= i <= j < |calls| ensures calls[i].time <= calls[j].time {
      assert Judged(stored, ttl, arrivals[i], calls[i]) && Judged(stored, ttl, arrivals[j], calls[j]);
    }
  }

  /** What the settings table promises a client, over every run: in any hour and any day it gets
      no more uploads through than the worst case of the largest value the setting had from one
      cache time to live, and one request's duration, before the interval to its end. */
  lemma SettingsBoundUploads(stored: History, ttl: nat, delay: nat, arrivals: seq<Arrival>, calls: seq<Call>,
      ip: string, hourly: nat, daily: nat, from: int)
    requires Sequential(arrivals) && Prompt(arrivals, delay) && AllJudged(stored, ttl, arrivals, calls)
    requires SettingUpTo(stored, UPLOAD_HOURLY, ttl, delay, from, 3_600_000, hourly)
    requires SettingUpTo(stored, UPLOAD_DAILY, ttl, delay, from, 86_400_000, daily)
    ensures UploadsDuring(calls, ip, from, from + 3_600_000) <= WorstCase(hourly, 3_600_000)
    ensures UploadsDuring(calls, ip, from, from + 86_400_000) <= WorstCase(daily, 86_400_000)
  {
    JudgedInOrder(stored, ttl, arrivals, calls);
    forall i | 0 <= i < |calls| && calls[i].UploadCall? && from <= calls[i].time
      ensures calls[i].time < from + 3_600_000 ==> calls[i].hourly <= hourly
      ensures calls[i].time < from + 86_400_000 ==> calls[i].daily <= daily
    {
      assert Judged(stored, ttl, arrivals[i], calls[i]);
      if calls[i].time < from + 3_600_000 {
        RecentUpTo(stored, UPLOAD_HOURLY, ttl, delay, from, 3_600_000, hourly, arrivals[i], calls[i].hourly);
      }
      if calls[i].time < from + 86_400_000 {
        RecentUpTo(stored, UPLOAD_DAILY, ttl, delay, from, 86_400_000, daily, arrivals[i], calls[i].daily);
      }
    }
    UploadBound(calls, ip, hourly, daily, from);
  }

  lemma SettingsBoundDownloads(stored: History, ttl: nat, delay: nat, arrivals: seq<Arrival>, calls: seq<Call>,
      ip: string, hourly: nat, from: int)
    requires Sequential(arrivals) && Prompt(arrivals, delay) && AllJudged(stored, ttl, arrivals, calls)
    requires SettingUpTo(stored, DOWNLOAD_HOURLY, ttl, delay, from, 3_600_000, hourly)
    ensures DownloadsDuring(calls, ip, from, from + 3_600_000) <= WorstCase(hourly, 3_600_000)
  {
    JudgedInOrder(stored, ttl, arrivals, calls);
    forall i | 0 <= i < |calls| && calls[i].DownloadCall? && from <= calls[i].time < from + 3_600_000
      ensures calls[i].hourly <= hourly
    {
      assert Judged(stored, ttl, arrivals[i], calls[i]);
      RecentUpTo(stored, DOWNLOAD_HOURLY, ttl, delay, from, 3_600_000, hourly, arrivals[i], calls[i].hourly);
    }
    DownloadBound(calls, ip, hourly, from);
  }
}
