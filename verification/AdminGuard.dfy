/** The guard that keeps one active administrator (backend/app/routers/admin.py:1114-1115,
    1210-1225 and 1289-1310). Each request is atomic. */
module AdminGuard {
  import opened Bytes

  datatype Role = AdminRole | Viewer

  datatype Admin = Admin(role: Role, disabled: bool)

  type Admins = map<nat, Admin>

  predicate IsActive(a: Admin) {
    !a.disabled && a.role == AdminRole
  }

  function Active(t: Admins): set<nat> {
    set id | id in t && IsActive(t[id])
  }

  datatype Request =
    | Create(id: nat, initialRole: Role)
    | Update(id: nat, role: Option<Role>, disabled: Option<bool>)
    | Delete(id: nat)

  /** The effect a request asks for, guard aside. */
  function Effect(t: Admins, r: Request): Admins {
    match r
    case Create(id, role) => if id in t then t else t[id := Admin(role, false)]
    case Update(id, role, disabled) =>
      if id !in t then t
      else
        var role' := if role.Some? then role.value else t[id].role;
        var disabled' := if disabled.Some? then disabled.value else t[id].disabled;
        t[id := Admin(role', disabled')]
    case Delete(id) => t - {id}
  }

  class AdminTable {
    var rows: Admins

    constructor (t: Admins)
      ensures rows == t
    {
      rows := t;
    }

    method UpdateAdmin(id: nat, role: Option<Role>, disabled: Option<bool>) returns (code: nat)
      modifies this
      ensures code == Respond(old(rows), Update(id, role, disabled))
      ensures rows == After(old(rows), Update(id, role, disabled))
      ensures |Active(old(rows))| >= 1 ==>
                && |Active(rows)| >= 1
                && (code == 409 <==> |Active(Effect(old(rows), Update(id, role, disabled)))| == 0)
      ensures code == 404 <==> id !in old(rows)
      ensures code in {404, 409} ==> rows == old(rows)
      ensures code == 200 ==>
                && rows.Keys == old(rows).Keys && (forall x :: x in rows && x != id ==> rows[x] == old(rows)[x])
                && rows[id].role == (match role case Some(x) => x case None => old(rows)[id].role)
                && rows[id].disabled == (match disabled case Some(x) => x case None => old(rows)[id].disabled)
    {
      if |Active(rows)| >= 1 {
        GuardIsExact(rows, Update(id, role, disabled));
      }
      if id !in rows {
        return 404;
      }
      var a := rows[id];
      var wouldReduce := disabled == Some(true) || (role == Some(Viewer) && a.role == AdminRole);
      if wouldReduce && !a.disabled && a.role == AdminRole {
        var count := |Active(rows)|;
        if count <= 1 {
          return 409;
        }
      }
      if role.Some? && role.value != a.role {
        a := a.(role := role.value);
      }
      if disabled.Some? && disabled.value != a.disabled {
        a := a.(disabled := disabled.value);
      }
      rows := rows[id := a];
      return 200;
    }

    method DeleteAdmin(id: nat) returns (code: nat)
      modifies this
      ensures code == Respond(old(rows), Delete(id))
      ensures rows == After(old(rows), Delete(id))
      ensures |Active(old(rows))| >= 1 ==>
                && |Active(rows)| >= 1
                && (code == 409 <==> |Active(Effect(old(rows), Delete(id)))| == 0)
      ensures code == 404 <==> id !in old(rows)
      ensures code in {404, 409} ==> rows == old(rows)
      ensures code == 204 ==> id !in rows && forall x :: x != id ==>
                (x in rows <==> x in old(rows)) && (x in rows ==> rows[x] == old(rows)[x])
    {
      if |Active(rows)| >= 1 {
        GuardIsExact(rows, Delete(id));
      }
      if id !in rows {
        return 404;
      }
      var count := |Active(rows)|;
      if IsActive(rows[id]) && count <= 1 {
        return 409;
      }
      rows := rows - {id};
      return 204;
    }
  }

  predicate Refused(t: Admins, r: Request) {
    match r
    case Create(_, _) => false
    case Update(id, role, disabled) =>
      && id in t && IsActive(t[id]) && |Active(t)| <= 1
      && (disabled == Some(true) || role == Some(Viewer))
    case Delete(id) => id in t && IsActive(t[id]) && |Active(t)| <= 1
  }

  function Respond(t: Admins, r: Request): nat {
    match r
    case Create(id, _) => if id in t then 409 else 201
    case Update(id, _, _) => if id !in t then 404 else if Refused(t, r) then 409 else 200
    case Delete(id) => if id !in t then 404 else if Refused(t, r) then 409 else 204
  }

  function After(t: Admins, r: Request): Admins {
    if Refused(t, r) then t else Effect(t, r)
  }

  /** Active means enabled and of role admin, and the effects are the ones asked for. */
  lemma EffectMeaning(t: Admins, r: Request)
    ensures forall id :: id in Active(t) <==> id in t && !t[id].disabled && t[id].role == AdminRole
    ensures forall id :: id != r.id ==>
              (id in Effect(t, r) <==> id in t) && (id in t ==> Effect(t, r)[id] == t[id])
    ensures match r
            case Create(id, role) => id !in t ==> id in Effect(t, r) && Effect(t, r)[id] == Admin(role, false)
            case Update(id, role, disabled) =>
              id in t ==>
                && id in Effect(t, r)
                && Effect(t, r)[id].role == (if role.Some? then role.value else t[id].role)
                && Effect(t, r)[id].disabled == (if disabled.Some? then disabled.value else t[id].disabled)
            case Delete(id) => id !in Effect(t, r)
  {
  }

  /** A request changes at most its own account's membership among the active ones. */
  lemma EffectOnActive(t: Admins, r: Request)
    ensures Active(Effect(t, r)) - {r.id} == Active(t) - {r.id}
  {
  }

  lemma CountSplit(s: set<nat>, x: nat)
    ensures |s| == |s - {x}| + if x in s then 1 else 0
  {
    if x in s {
      assert s == (s - {x}) + {x};
    } else {
      assert s - {x} == s;
    }
  }

  /** The guard is exact: it refuses a request precisely when carrying it out would leave no
      active administrator. */
  lemma GuardIsExact(t: Admins, r: Request)
    requires |Active(t)| >= 1
    ensures Refused(t, r) <==> |Active(Effect(t, r))| == 0
  {
    EffectOnActive(t, r);
    CountSplit(Active(t), r.id);
    CountSplit(Active(Effect(t, r)), r.id);
    var after := Effect(t, r);
    if r.id in t && r.id in Active(t) {
      assert r.Delete? ==> r.id !in after;
    }
  }

  function Run(t: Admins, requests: seq<Request>): Admins {
    if requests == [] then t
    else After(Run(t, requests[..|requests| - 1]), requests[|requests| - 1])
  }

  /** Starting with an active administrator there is one after every run; and a request that
      would leave one is never refused. */
  lemma {:induction false} AlwaysOneActive(t: Admins, requests: seq<Request>, next: Request)
    requires |Active(t)| >= 1
    ensures |Active(Run(t, requests))| >= 1
    ensures |Active(Effect(Run(t, requests), next))| >= 1 ==> !Refused(Run(t, requests), next)
  {
    if requests != [] {
      var init, last := requests[..|requests| - 1], requests[|requests| - 1];
      AlwaysOneActive(t, init, last);
      GuardIsExact(Run(t, init), last);
    }
    GuardIsExact(Run(t, requests), next);
  }
}
