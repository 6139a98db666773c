/** The Redis session store with its per-admin index (backend/app/services/session.py). A key
    is visible until its expiry time; each operation is atomic; time only moves forward. */
module Sessions {
  import opened Bytes

  type Sid = string
  type AdminId = nat

  datatype Session = Session(admin: AdminId, issuedAt: int, lastActive: int)

  datatype Timed<T> = Timed(value: T, expiresAt: int)

  /** Keys past their expiry may linger in the maps; they are invisible to every operation. */
  datatype Store = Store(now: int, sessions: map<Sid, Timed<Session>>, index: map<AdminId, Timed<set<Sid>>>)

  predicate Live(s: Store, sid: Sid) {
    sid in s.sessions && s.sessions[sid].expiresAt > s.now
  }

  /** SMEMBERS of the admin's index key. */
  function Members(s: Store, admin: AdminId): set<Sid> {
    if admin in s.index && s.index[admin].expiresAt > s.now then s.index[admin].value else {}
  }

  /** What an observer can load. */
  function LiveSessions(s: Store): map<Sid, Session> {
    map sid | sid in s.sessions && Live(s, sid) :: s.sessions[sid].value
  }

  // ---- The operations ----

  function Create(s: Store, ttl: nat, admin: AdminId, sid: Sid): Store {
    s.(sessions := s.sessions[sid := Timed(Session(admin, s.now, s.now), s.now + ttl)],
       index := s.index[admin := Timed(Members(s, admin) + {sid}, s.now + ttl)])
  }

  /** Refreshes the session and, if it still exists, the index key. */
  function Touch(s: Store, ttl: nat, sid: Sid): Store {
    if !Live(s, sid) then s
    else
      var session := s.sessions[sid].value;
      var t := s.(sessions := s.sessions[sid := Timed(session.(lastActive := s.now), s.now + ttl)]);
      if session.admin in s.index && s.index[session.admin].expiresAt > s.now
      then t.(index := s.index[session.admin := s.index[session.admin].(expiresAt := s.now + ttl)])
      else t
  }

  function Destroy(s: Store, sid: Sid): Store {
    if !Live(s, sid) then s.(sessions := s.sessions - {sid})
    else
      var admin := s.sessions[sid].value.admin;
      var left := Members(s, admin) - {sid};
      s.(sessions := s.sessions - {sid},
         index := if admin !in s.index || s.index[admin].expiresAt <= s.now then s.index
                  else if left == {} then s.index - {admin}
                  else s.index[admin := s.index[admin].(value := left)])
  }

  function DestroyAllFor(s: Store, admin: AdminId): Store {
    var members := Members(s, admin);
    if members == {} then s
    else s.(sessions := s.sessions - members, index := s.index - {admin})
  }

  // ---- The invariant ----

  /** Every live session is in its admin's index, which expires no earlier than the session;
      and whatever an index lists that still exists belongs to that admin. */
  ghost predicate Inv(s: Store) {
    && (forall sid :: Live(s, sid) ==>
          var a := s.sessions[sid].value.admin;
          sid in Members(s, a) && s.index[a].expiresAt >= s.sessions[sid].expiresAt)
    && (forall a, sid :: a in s.index && sid in s.index[a].value && sid in s.sessions ==>
          s.sessions[sid].value.admin == a)
  }

  /** A random token that no key mentions. */
  ghost predicate Unused(s: Store, sid: Sid) {
    sid !in s.sessions && forall a :: a in s.index ==> sid !in s.index[a].value
  }

  datatype Event =
    | Login(admin: AdminId, sid: Sid)
    | Request(sid: Sid)
    | Logout(sid: Sid)
    | LogoutAll(admin: AdminId)
    | Wait(d: nat)

  ghost function Apply(s: Store, ttl: nat, e: Event): Store {
    match e
    case Login(admin, sid) => if Unused(s, sid) then Create(s, ttl, admin, sid) else s
    case Request(sid) => Touch(s, ttl, sid)
    case Logout(sid) => Destroy(s, sid)
    case LogoutAll(admin) => DestroyAllFor(s, admin)
    case Wait(d) => s.(now := s.now + d)
  }

  ghost function Run(s: Store, ttl: nat, events: seq<Event>): Store {
    if events == [] then s
    else Apply(Run(s, ttl, events[..|events| - 1]), ttl, events[|events| - 1])
  }

  lemma CreateKeepsInv(s: Store, ttl: nat, admin: AdminId, sid: Sid)
    requires ttl > 0 && Inv(s) && Unused(s, sid)
    requires forall x :: Live(s, x) ==> s.sessions[x].expiresAt <= s.now + ttl
    ensures Inv(Create(s, ttl, admin, sid))
  {
    var t := Create(s, ttl, admin, sid);
    forall x | Live(t, x)
      ensures var a := t.sessions[x].value.admin; x in Members(t, a) && t.index[a].expiresAt >= t.sessions[x].expiresAt
    {
      if x != sid {
        assert Live(s, x);
      }
    }
  }

  lemma TouchKeepsInv(s: Store, ttl: nat, sid: Sid)
    requires ttl > 0 && Inv(s)
    requires forall x :: Live(s, x) ==> s.sessions[x].expiresAt <= s.now + ttl
    ensures Inv(Touch(s, ttl, sid))
  {
    var t := Touch(s, ttl, sid);
    forall x | Live(t, x)
      ensures var a := t.sessions[x].value.admin; x in Members(t, a) && t.index[a].expiresAt >= t.sessions[x].expiresAt
    {
      assert Live(s, x);
    }
  }

  lemma DestroyKeepsInv(s: Store, sid: Sid)
    requires Inv(s)
    ensures Inv(Destroy(s, sid))
  {
    var t := Destroy(s, sid);
    forall x | Live(t, x)
      ensures var a := t.sessions[x].value.admin; x in Members(t, a) && t.index[a].expiresAt >= t.sessions[x].expiresAt
    {
      assert Live(s, x) && x != sid;
    }
  }

  /** The live sessions of the admin are gone, and every other live session is untouched. */
  lemma DestroyAllForIsExact(s: Store, admin: AdminId)
    requires Inv(s)
    ensures Inv(DestroyAllFor(s, admin))
    ensures LiveSessions(DestroyAllFor(s, admin))
         == map sid | sid in LiveSessions(s) && LiveSessions(s)[sid].admin != admin :: LiveSessions(s)[sid]
  {
    var t := DestroyAllFor(s, admin);
    var members := Members(s, admin);
    assert forall y :: y in members && y in s.sessions ==> s.sessions[y].value.admin == admin;
    forall x | Live(t, x)
      ensures Live(s, x) && t.sessions[x] == s.sessions[x] && s.sessions[x].value.admin != admin
      ensures var a := t.sessions[x].value.admin; x in Members(t, a) && t.index[a].expiresAt >= t.sessions[x].expiresAt
    {
      assert Live(s, x);
      assert x !in members;
    }
    forall x | Live(s, x) && s.sessions[x].value.admin != admin ensures Live(t, x) {
      assert x !in members;
    }
  }

  /** What an observer sees of the other operations: a login adds exactly its session, a
      request only refreshes its own last-active time, a logout removes exactly its session. */
  lemma ObservableEffects(s: Store, ttl: nat, admin: AdminId, sid: Sid)
    requires ttl > 0
    ensures LiveSessions(Create(s, ttl, admin, sid)) == LiveSessions(s)[sid := Session(admin, s.now, s.now)]
    ensures LiveSessions(Touch(s, ttl, sid)) ==
              if sid in LiveSessions(s)
              then LiveSessions(s)[sid := LiveSessions(s)[sid].(lastActive := s.now)]
              else LiveSessions(s)
    ensures LiveSessions(Destroy(s, sid)) == LiveSessions(s) - {sid}
  {
    TouchEffect(s, ttl, sid);
  }

  lemma TouchEffect(s: Store, ttl: nat, sid: Sid)
    requires ttl > 0
    ensures LiveSessions(Touch(s, ttl, sid)) ==
              if sid in LiveSessions(s)
              then LiveSessions(s)[sid := LiveSessions(s)[sid].(lastActive := s.now)]
              else LiveSessions(s)
  {
    assert LiveSessions(Touch(s, ttl, sid)).Keys == LiveSessions(s).Keys;
  }

  /** Nothing lives longer than one time to live from now. */
  ghost predicate Bounded(s: Store, ttl: nat) {
    forall x :: Live(s, x) ==> s.sessions[x].expiresAt <= s.now + ttl
  }

  lemma ApplyKeepsBound(s: Store, ttl: nat, e: Event)
    requires Bounded(s, ttl)
    ensures Bounded(Apply(s, ttl, e), ttl)
  {
    var t := Apply(s, ttl, e);
    forall x | Live(t, x) ensures t.sessions[x].expiresAt <= t.now + ttl {
      assert x in s.sessions ==> t.sessions[x] == s.sessions[x] || t.sessions[x].expiresAt == s.now + ttl;
      if x in s.sessions && t.sessions[x] == s.sessions[x] {
        assert Live(s, x);
      }
    }
  }

  /** Over every run of logins, requests, logouts, revocations and waiting: the index and the
      sessions agree. */
  lemma {:induction false} IndexAgrees(s: Store, ttl: nat, events: seq<Event>)
    requires ttl > 0 && Inv(s) && Bounded(s, ttl)
    ensures Inv(Run(s, ttl, events)) && Bounded(Run(s, ttl, events), ttl)
  {
    if events != [] {
      var init, e := events[..|events| - 1], events[|events| - 1];
      IndexAgrees(s, ttl, init);
      var t := Run(s, ttl, init);
      ApplyKeepsBound(t, ttl, e);
      match e
      case Login(admin, sid) =>
        if Unused(t, sid) {
          CreateKeepsInv(t, ttl, admin, sid);
        }
      case Request(sid) => TouchKeepsInv(t, ttl, sid);
      case Logout(sid) => DestroyKeepsInv(t, sid);
      case LogoutAll(admin) => DestroyAllForIsExact(t, admin);
      case Wait(d) =>
        var u := t.(now := t.now + d);
        forall x | Live(u, x) ensures Live(t, x) { }
    }
  }

  /** Revoking an admin's sessions works after any history from an empty store. */
  lemma LogoutAllAfterAnyHistory(now: int, ttl: nat, events: seq<Event>, admin: AdminId)
    requires ttl > 0
    ensures var s := Run(Store(now, map[], map[]), ttl, events);
            var t := DestroyAllFor(s, admin);
            && (forall sid :: sid in LiveSessions(t) ==> LiveSessions(t)[sid].admin != admin)
            && (forall sid :: sid in LiveSessions(s) && LiveSessions(s)[sid].admin != admin ==>
                  sid in LiveSessions(t) && LiveSessions(t)[sid] == LiveSessions(s)[sid])
  {
    IndexAgrees(Store(now, map[], map[]), ttl, events);
    DestroyAllForIsExact(Run(Store(now, map[], map[]), ttl, events), admin);
  }

  // ---- The sliding lifetime, over every run ----

  function Clock(now: int, events: seq<Event>): int {
    if events == [] then now
    else
      var last := events[|events| - 1];
      Clock(now, events[..|events| - 1]) + if last.Wait? then last.d else 0
  }

  /** Tokens are random: no two logins share one. */
  ghost predicate FreshTokens(events: seq<Event>) {
    forall i, j :: 0 <= i < j < |events| && events[i].Login? && events[j].Login? ==> events[i].sid != events[j].sid
  }

  /** Who logged in with this token, and when. */
  function LoginOf(now: int, events: seq<Event>, sid: Sid): Option<(AdminId, int)> {
    if events == [] then None
    else
      var init, last := events[..|events| - 1], events[|events| - 1];
      if last.Login? && last.sid == sid then Some((last.admin, Clock(now, init))) else LoginOf(now, init, sid)
  }

  /** When the session was last used: its login, or the last request less than `ttl` after the
      use before; nothing once it has been logged out, alone or with all of its admin's. */
  function LastUse(now: int, ttl: nat, events: seq<Event>, sid: Sid): Option<int> {
    if events == [] then None
    else
      var init, last := events[..|events| - 1], events[|events| - 1];
      var before, time := LastUse(now, ttl, init, sid), Clock(now, init);
      match last
      case Login(_, x) => if x == sid then Some(time) else before
      case Request(x) => if x == sid && before.Some? && time < before.value + ttl then Some(time) else before
      case Logout(x) => if x == sid then None else before
      case LogoutAll(admin) =>
        var login := LoginOf(now, init, sid);
        if login.Some? && login.value.0 == admin then None else before
      case Wait(_) => before
  }

  /** The session the store must show for this token, if any. */
  function Expected(now: int, ttl: nat, events: seq<Event>, sid: Sid): Option<Timed<Session>> {
    var use, login := LastUse(now, ttl, events, sid), LoginOf(now, events, sid);
    if use.Some? && login.Some? && Clock(now, events) < use.value + ttl
    then Some(Timed(Session(login.value.0, login.value.1, use.value), use.value + ttl))
    else None
  }

  function Shown(s: Store, sid: Sid): Option<Timed<Session>> {
    if Live(s, sid) then Some(s.sessions[sid]) else None
  }

  /** The store mentions only tokens of earlier logins. */
  ghost predicate Mentions(s: Store, now: int, events: seq<Event>) {
    && s.now == Clock(now, events)
    && (forall sid :: sid in s.sessions ==> LoginOf(now, events, sid).Some?)
    && (forall a, sid :: a in s.index && sid in s.index[a].value ==> LoginOf(now, events, sid).Some?)
  }

  lemma {:induction false} OnlyEarlierLogins(now: int, events: seq<Event>, sid: Sid)
    requires LoginOf(now, events, sid).Some?
    ensures exists i :: 0 <= i < |events| && events[i].Login? && events[i].sid == sid
  {
    var init, last := events[..|events| - 1], events[|events| - 1];
    if !(last.Login? && last.sid == sid) {
      OnlyEarlierLogins(now, init, sid);
      var i :| 0 <= i < |init| && init[i].Login? && init[i].sid == sid;
      assert events[i] == init[i];
    }
  }

  lemma {:induction false} LastUseHasLogin(now: int, ttl: nat, events: seq<Event>, sid: Sid)
    ensures LastUse(now, ttl, events, sid).Some? ==> LoginOf(now, events, sid).Some?
  {
    if events != [] {
      LastUseHasLogin(now, ttl, events[..|events| - 1], sid);
    }
  }

  /** One event, on one token. */
  lemma ShownAfter(s: Store, ttl: nat, e: Event, sid: Sid)
    requires ttl > 0 && Inv(s)
    ensures var t, before := Apply(s, ttl, e), Shown(s, sid);
            match e
            case Login(admin, x) =>
              x == sid && Unused(s, sid) ==> Shown(t, sid) == Some(Timed(Session(admin, s.now, s.now), s.now + ttl))
            case Request(x) =>
              x == sid ==>
                Shown(t, sid) ==
                  if before.Some? then Some(Timed(before.value.value.(lastActive := s.now), s.now + ttl)) else None
            case Logout(x) => x == sid ==> Shown(t, sid) == None
            case LogoutAll(admin) =>
              Shown(t, sid) == if before.Some? && before.value.value.admin == admin then None else before
            case Wait(d) =>
              Shown(t, sid) == if before.Some? && before.value.expiresAt > s.now + d then before else None
    ensures (e.Login? || e.Request? || e.Logout?) && e.sid != sid ==> Shown(Apply(s, ttl, e), sid) == Shown(s, sid)
  {
    if e.LogoutAll? && Live(s, sid) {
      assert sid in Members(s, s.sessions[sid].value.admin);
    }
  }

  lemma MentionsAfter(s: Store, ttl: nat, now: int, events: seq<Event>, e: Event)
    requires Mentions(s, now, events)
    ensures Mentions(Apply(s, ttl, e), now, events + [e])
  {
    assert (events + [e])[..|events|] == events;
    forall sid | LoginOf(now, events, sid).Some? ensures LoginOf(now, events + [e], sid).Some? { }
  }

  /** Over every run from an empty store: a token shows a session exactly while less than `ttl` has
      passed since its login or last request and no logout has followed; the session is the one
      of the admin who logged in with it, with the times of that login and of the last request. */
  lemma {:induction false} SlidingLifetime(now: int, ttl: nat, events: seq<Event>, sid: Sid)
    requires ttl > 0 && FreshTokens(events)
    ensures var s := Run(Store(now, map[], map[]), ttl, events);
            Mentions(s, now, events) && Shown(s, sid) == Expected(now, ttl, events, sid)
  {
    if events != [] {
      var init, e := events[..|events| - 1], events[|events| - 1];
      assert events == init + [e];
      assert forall i :: 0 <= i < |init| ==> init[i] == events[i];
      SlidingLifetime(now, ttl, init, sid);
      var s := Run(Store(now, map[], map[]), ttl, init);
      IndexAgrees(Store(now, map[], map[]), ttl, init);
      MentionsAfter(s, ttl, now, init, e);
      ShownAfter(s, ttl, e, sid);
      LastUseHasLogin(now, ttl, init, sid);
      if e.Login? && e.sid == sid {
        if LoginOf(now, init, sid).Some? {
          OnlyEarlierLogins(now, init, sid);
        }
        assert Unused(s, sid);
      }
    }
  }

  /** The store as the code drives it: pipelined commands on the two kinds of key. */
  class SessionStore {
    var now: int
    var sessions: map<Sid, Timed<Session>>
    var index: map<AdminId, Timed<set<Sid>>>
    const ttl: nat

    ghost function View(): Store
      reads this
    {
      Store(now, sessions, index)
    }

    constructor (now: int, ttl: nat)
      ensures View() == Store(now, map[], map[]) && this.ttl == ttl
    {
      this.now, this.ttl := now, ttl;
      sessions, index := map[], map[];
    }

    method GetSession(sid: Sid) returns (r: Option<Session>)
      ensures r.Some? <==> sid in LiveSessions(View())
      ensures r.Some? ==> r.value == LiveSessions(View())[sid]
    {
      if sid in sessions && sessions[sid].expiresAt > now {
        return Some(sessions[sid].value);
      }
      return None;
    }

    method CreateSession(admin: AdminId, sid: Sid)
      modifies this`sessions, this`index
      ensures View() == Create(old(View()), ttl, admin, sid)
      ensures ttl > 0 ==> LiveSessions(View()) == LiveSessions(old(View()))[sid := Session(admin, now, now)]
    {
      if ttl > 0 {
        ObservableEffects(View(), ttl, admin, sid);
      }
      sessions := sessions[sid := Timed(Session(admin, now, now), now + ttl)];
      if admin in index && index[admin].expiresAt > now {
        index := index[admin := Timed(index[admin].value + {sid}, now + ttl)];
      } else {
        index := index[admin := Timed({sid}, now + ttl)];
      }
      assert Members(old(View()), admin) + {sid} == index[admin].value;
    }

    method TouchSession(sid: Sid) returns (r: bool)
      modifies this`sessions, this`index
      ensures View() == Touch(old(View()), ttl, sid)
      ensures r <==> Live(old(View()), sid)
      ensures ttl > 0 ==>
                LiveSessions(View()) ==
                  if r then LiveSessions(old(View()))[sid := LiveSessions(old(View()))[sid].(lastActive := now)]
                  else LiveSessions(old(View()))
    {
      if ttl > 0 {
        TouchEffect(View(), ttl, sid);
      }
      var current := GetSession(sid);
      if current.None? {
        return false;
      }
      sessions := sessions[sid := Timed(current.value.(lastActive := now), now + ttl)];
      var admin := current.value.admin;
      if admin in index && index[admin].expiresAt > now {
        index := index[admin := index[admin].(expiresAt := now + ttl)];
      }
      return true;
    }

    method DestroySession(sid: Sid)
      modifies this`sessions, this`index
      ensures View() == Destroy(old(View()), sid)
      ensures LiveSessions(View()) == LiveSessions(old(View())) - {sid}
    {
      var current := GetSession(sid);
      sessions := sessions - {sid};
      if current.Some? {
        var admin := current.value.admin;
        if admin in index && index[admin].expiresAt > now {
          var left := index[admin].value - {sid};
          if left == {} {
            index := index - {admin};
          } else {
            index := index[admin := index[admin].(value := left)];
          }
        }
      }
    }

    method DestroyAllSessions(admin: AdminId) returns (count: nat)
      modifies this`sessions, this`index
      ensures View() == DestroyAllFor(old(View()), admin)
      ensures count == |Members(old(View()), admin)|
      ensures Inv(old(View())) ==>
                LiveSessions(View()) ==
                  map x | x in LiveSessions(old(View())) && LiveSessions(old(View()))[x].admin != admin ::
                    LiveSessions(old(View()))[x]
    {
      if Inv(View()) {
        DestroyAllForIsExact(View(), admin);
      }
      if admin !in index || index[admin].expiresAt <= now || index[admin].value == {} {
        return 0;
      }
      var members := index[admin].value;
      sessions := sessions - members;
      index := index - {admin};
      return |members|;
    }
  }
}
