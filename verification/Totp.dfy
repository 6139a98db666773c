/** TOTP secrets at rest: the padded envelope, the one-shot migration of legacy plaintext
    secrets, rotation, and what login recovers (backend/app/services/auth.py,
    backend/scripts/wrap_totp_secrets.py). A secret is the UTF-8 bytes of its text. */
module Totp {
  import opened Bytes
  import opened KeyWrap
  import Envelope

  const BLOCK_LEN := 40
  const WRAPPED_LEN := 48
  const SECRET_MAX := 39

  datatype TotpError = BadLength | TooLong | UnwrapFailed | Missing

  // ---- The padded block ----

  function Pad(secret: bytes): (block: bytes)
    requires |secret| <= SECRET_MAX
    ensures |block| == BLOCK_LEN
    ensures block[1..1 + |secret|] == secret && forall i :: 1 + |secret| <= i < 40 ==> block[i] == 0
  {
    [|secret| as byte] + secret + Zeros(BLOCK_LEN - 1 - |secret|)
  }

  function Unpad(block: bytes): Result<bytes, TotpError>
    requires |block| == BLOCK_LEN
  {
    var length := block[0] as int;
    if length > SECRET_MAX then Err(TooLong) else Ok(block[1..1 + length])
  }

  lemma UnpadPad(secret: bytes)
    requires |secret| <= SECRET_MAX
    ensures Unpad(Pad(secret)) == Ok(secret)
    ensures Pad(secret)[0] as int == |secret|
  {
    var block := Pad(secret);
    ByteRoundTrip(|secret|);
    assert block[0] == |secret| as byte;
    assert block[1..1 + |secret|] == secret;
  }

  lemma PadInjective(a: bytes, b: bytes)
    requires |a| <= SECRET_MAX && |b| <= SECRET_MAX
    requires Pad(a) == Pad(b)
    ensures a == b
  {
    UnpadPad(a);
    UnpadPad(b);
  }

  // ---- The envelope ----

  function WrapSecret(c: Cipher, master: bytes, secret: bytes): Result<bytes, TotpError> {
    if |master| != KEY_LEN then Err(BadLength)
    else if |secret| > SECRET_MAX then Err(TooLong)
    else Ok(Wrap(c, master, Pad(secret)))
  }

  /** Opens the block under the current key, else the previous one. */
  function OpenBlock(c: Cipher, master: bytes, wrapped: bytes, previous: Option<bytes>): Option<bytes> {
    match Unwrap(c, master, wrapped)
    case Some(block) => Some(block)
    case None => if previous.None? then None else Unwrap(c, previous.value, wrapped)
  }

  function UnwrapSecret(c: Cipher, master: bytes, wrapped: bytes, previous: Option<bytes>): Result<bytes, TotpError> {
    if |master| != KEY_LEN || (previous.Some? && |previous.value| != KEY_LEN) then Err(BadLength)
    else if |wrapped| != WRAPPED_LEN then Err(BadLength)
    else match OpenBlock(c, master, wrapped, previous)
      case None => Err(UnwrapFailed)
      case Some(block) =>
        // An opened 48-byte blob always holds a 40-byte block (OpenedBlockLength).
        if |block| != BLOCK_LEN then Err(UnwrapFailed) else Unpad(block)
  }

  lemma OpenedBlockLength(c: Cipher, master: bytes, wrapped: bytes, previous: Option<bytes>)
    requires |wrapped| == WRAPPED_LEN
    ensures OpenBlock(c, master, wrapped, previous).Some? ==>
              |OpenBlock(c, master, wrapped, previous).value| == BLOCK_LEN
  {
    match Unwrap(c, master, wrapped)
    case Some(block) =>
      UnwrapIffWrap(c, master, wrapped, block);
      WrapLength(c, master, block);
    case None =>
      if previous.Some? && Unwrap(c, previous.value, wrapped).Some? {
        var block := Unwrap(c, previous.value, wrapped).value;
        UnwrapIffWrap(c, previous.value, wrapped, block);
        WrapLength(c, previous.value, block);
      }
  }

  lemma WrapSecretOpens(c: Cipher, master: bytes, secret: bytes, previous: Option<bytes>)
    requires |master| == KEY_LEN && |secret| <= SECRET_MAX
    requires previous.Some? ==> |previous.value| == KEY_LEN
    ensures var w := WrapSecret(c, master, secret).value;
            |w| == WRAPPED_LEN && OpenBlock(c, master, w, previous) == Some(Pad(secret))
              && UnwrapSecret(c, master, w, previous) == Ok(secret)
  {
    UnwrapWrap(c, master, Pad(secret));
    WrapLength(c, master, Pad(secret));
    UnpadPad(secret);
  }

  predicate IsWrapped(data: bytes) {
    |data| == WRAPPED_LEN
  }

  // ---- What login sees ----

  /** The secret the login handler checks a code against. */
  function LoginSecret(c: Cipher, current: bytes, previous: Option<bytes>, stored: Option<bytes>)
    : Result<bytes, TotpError>
  {
    if stored.None? then Err(Missing)
    else if IsWrapped(stored.value) then UnwrapSecret(c, current, stored.value, previous)
    else Ok(stored.value)
  }

  // ---- The two maintenance operations on one stored value ----

  /** wrap_totp_secrets.py on one row: None is the exception that aborts the script. */
  function MigrateRow(c: Cipher, current: bytes, stored: Option<bytes>): Result<Option<bytes>, TotpError> {
    if stored.None? || IsWrapped(stored.value) then Ok(stored)
    else match WrapSecret(c, current, stored.value)
      case Ok(w) => Ok(Some(w))
      case Err(e) => Err(e)
  }

  /** Rotation on one row: legacy and missing secrets are left alone. */
  function RewrapRow(c: Cipher, current: bytes, previous: Option<bytes>, stored: Option<bytes>)
    : Result<Option<bytes>, TotpError>
  {
    if stored.None? || !IsWrapped(stored.value) then Ok(stored)
    else match UnwrapSecret(c, current, stored.value, previous)
      case Err(e) => Err(e)
      case Ok(secret) =>
        match WrapSecret(c, current, secret)
        case Ok(w) => Ok(Some(w))
        case Err(e) => Err(e)
  }

  /** Migrating a row keeps the secret login recovers. It fails exactly on a legacy secret
      of more than 39 bytes (one of 48 bytes is taken for a wrapped one). */
  lemma MigrateKeepsLogin(c: Cipher, current: bytes, previous: Option<bytes>, stored: Option<bytes>)
    requires Envelope.GoodKeys(current, previous)
    ensures MigrateRow(c, current, stored).Err? <==>
              stored.Some? && |stored.value| > SECRET_MAX && |stored.value| != WRAPPED_LEN
    ensures MigrateRow(c, current, stored).Ok? ==>
              LoginSecret(c, current, previous, MigrateRow(c, current, stored).value)
                == LoginSecret(c, current, previous, stored)
  {
    if stored.Some? && |stored.value| <= SECRET_MAX {
      WrapSecretOpens(c, current, stored.value, previous);
    }
  }

  /** What the migration achieves: a legacy secret is afterwards a 48-byte blob that the current
      master key, alone, opens to the block of that secret; anything else is left as it was. */
  lemma MigrateWraps(c: Cipher, current: bytes, stored: Option<bytes>)
    requires MigrateRow(c, current, stored).Ok?
    ensures var after := MigrateRow(c, current, stored).value;
            if stored.Some? && |stored.value| != 48 then
              && after.Some? && |after.value| == 48 && |stored.value| <= 39
              && Unwrap(c, current, after.value) == Some(Pad(stored.value))
            else after == stored
  {
    if stored.Some? && |stored.value| != 48 {
      WrapSecretOpens(c, current, stored.value, None);
    }
  }

  /** Rewrapping a row keeps the secret login recovers. It fails exactly when login itself
      could not have recovered a wrapped secret. */
  lemma RewrapKeepsLogin(c: Cipher, current: bytes, previous: Option<bytes>, stored: Option<bytes>)
    requires Envelope.GoodKeys(current, previous)
    ensures RewrapRow(c, current, previous, stored).Err? <==>
              stored.Some? && LoginSecret(c, current, previous, stored).Err?
    ensures RewrapRow(c, current, previous, stored).Ok? ==>
              LoginSecret(c, current, previous, RewrapRow(c, current, previous, stored).value)
                == LoginSecret(c, current, previous, stored)
  {
    if stored.Some? && IsWrapped(stored.value) {
      match UnwrapSecret(c, current, stored.value, previous)
      case Ok(secret) =>
        assert |secret| <= SECRET_MAX;
        WrapSecretOpens(c, current, secret, previous);
      case Err(_) =>
    }
  }

  /** Both operations are idempotent, byte for byte. */
  lemma MaintenanceIdempotent(c: Cipher, current: bytes, previous: Option<bytes>, stored: Option<bytes>)
    requires Envelope.GoodKeys(current, previous)
    ensures MigrateRow(c, current, stored).Ok? ==>
              var after := MigrateRow(c, current, stored).value; MigrateRow(c, current, after) == Ok(after)
    ensures RewrapRow(c, current, previous, stored).Ok? ==>
              var after := RewrapRow(c, current, previous, stored).value;
              RewrapRow(c, current, previous, after) == Ok(after)
  {
    if stored.Some? && |stored.value| <= SECRET_MAX {
      WrapSecretOpens(c, current, stored.value, previous);
    }
    if stored.Some? && IsWrapped(stored.value) {
      match UnwrapSecret(c, current, stored.value, previous)
      case Ok(secret) => WrapSecretOpens(c, current, secret, previous);
      case Err(_) =>
    }
  }

  /** After a rewrap the previous key is no longer needed. */
  lemma RewrapFreesPreviousKey(c: Cipher, current: bytes, previous: Option<bytes>, stored: Option<bytes>)
    requires Envelope.GoodKeys(current, previous)
    requires stored.Some? && IsWrapped(stored.value) && RewrapRow(c, current, previous, stored).Ok?
    ensures LoginSecret(c, current, None, RewrapRow(c, current, previous, stored).value)
         == LoginSecret(c, current, previous, stored)
  {
    var secret := UnwrapSecret(c, current, stored.value, previous).value;
    WrapSecretOpens(c, current, secret, None);
  }

  // ---- Whole tables and whole histories ----

  class AdminDb {
    var secrets: seq<Option<bytes>>

    constructor (s: seq<Option<bytes>>)
      ensures secrets == s
    {
      secrets := s;
    }
  }

  datatype Maintenance = WrapLegacy | Rotate

  function MaintainRow(c: Cipher, current: bytes, previous: Option<bytes>, op: Maintenance, stored: Option<bytes>)
    : Result<Option<bytes>, TotpError>
  {
    match op
    case WrapLegacy => MigrateRow(c, current, stored)
    case Rotate => RewrapRow(c, current, previous, stored)
  }

  type Secrets = seq<Option<bytes>>

  /** Some row makes the run raise. */
  predicate RunRaises(c: Cipher, current: bytes, previous: Option<bytes>, op: Maintenance, rows: Secrets) {
    exists i :: 0 <= i < |rows| && MaintainRow(c, current, previous, op, rows[i]).Err?
  }

  /** The table after one run: all rows maintained or, if any row raises, none. */
  function MaintainTable(c: Cipher, current: bytes, previous: Option<bytes>, op: Maintenance, rows: Secrets): Secrets {
    if RunRaises(c, current, previous, op, rows) then rows
    else seq(|rows|, i requires 0 <= i < |rows| =>
           match MaintainRow(c, current, previous, op, rows[i])
           case Ok(after) => after
           case Err(_) => rows[i])
  }

  ghost predicate MigratedRow(c: Cipher, current: bytes, before: Option<bytes>, after: Option<bytes>) {
    if before.Some? && |before.value| != 48 then
      && after.Some? && |after.value| == 48 && |before.value| <= 39
      && Unwrap(c, current, after.value) == Some(Pad(before.value))
    else after == before
  }

  /** No plaintext secret is left: each is now a blob that opens to it, and nothing else changed. */
  ghost predicate Migrated(c: Cipher, current: bytes, before: Secrets, after: Secrets) {
    |after| == |before| && forall i :: 0 <= i < |before| ==> MigratedRow(c, current, before[i], after[i])
  }

  /** The rows an operation is about: legacy secrets for the migration, wrapped ones for rotation. */
  function Concerned(op: Maintenance, rows: Secrets): set<nat> {
    set i | 0 <= i < |rows| && rows[i].Some? && (|rows[i].value| == 48 <==> op == Rotate)
  }

  lemma RunMeaning(c: Cipher, current: bytes, previous: Option<bytes>, op: Maintenance, rows: Secrets)
    requires !RunRaises(c, current, previous, op, rows)
    ensures CountTouched(op, rows) == |Concerned(op, rows)|
    ensures op == WrapLegacy ==> Migrated(c, current, rows, MaintainTable(c, current, previous, op, rows))
  {
    CountIsCardinality(op, rows);
    assert Concerned(op, rows) == set i | 0 <= i < |rows| && Touches(op, rows[i]);
    if op == WrapLegacy {
      var after := MaintainTable(c, current, previous, op, rows);
      forall i | 0 <= i < |rows| ensures MigratedRow(c, current, rows[i], after[i]) {
        assert MaintainRow(c, current, previous, op, rows[i]).Ok?;
        MigrateWraps(c, current, rows[i]);
      }
    }
  }

  lemma {:induction false} CountIsCardinality(op: Maintenance, rows: Secrets)
    ensures CountTouched(op, rows) == |set i | 0 <= i < |rows| && Touches(op, rows[i])|
  {
    if rows != [] {
      var init := rows[..|rows| - 1];
      CountIsCardinality(op, init);
      var before := set i | 0 <= i < |init| && Touches(op, init[i]);
      var after := set i | 0 <= i < |rows| && Touches(op, rows[i]);
      if Touches(op, rows[|rows| - 1]) {
        assert after == before + {|rows| - 1};
      } else {
        assert after == before;
      }
    }
  }

  /** One run of the migration script or of the rotation loop over all admins: either every
      row is maintained and committed, or some row raises and nothing is committed. The
      result counts the rows the script reports as wrapped or rewrapped. */
  method RunMaintenance(c: Cipher, current: bytes, previous: Option<bytes>, op: Maintenance, db: AdminDb)
    returns (r: Result<nat, TotpError>)
    modifies db
    ensures r.Err? <==> RunRaises(c, current, previous, op, old(db.secrets))
    ensures db.secrets == MaintainTable(c, current, previous, op, old(db.secrets))
    ensures r.Ok? ==> r.value == CountTouched(op, old(db.secrets))
    ensures r.Ok? ==> r.value == |Concerned(op, old(db.secrets))|
    ensures r.Ok? && op == WrapLegacy ==> Migrated(c, current, old(db.secrets), db.secrets)
  {
    var pending := db.secrets;
    var changed := 0;
    for i := 0 to |pending|
      invariant |pending| == |db.secrets| && db.secrets == old(db.secrets)
      invariant forall j :: 0 <= j < i ==> MaintainRow(c, current, previous, op, db.secrets[j]) == Ok(pending[j])
      invariant forall j :: i <= j < |pending| ==> pending[j] == db.secrets[j]
      invariant changed == CountTouched(op, db.secrets[..i])
    {
      assert db.secrets[..i + 1][..i] == db.secrets[..i];
      match MaintainRow(c, current, previous, op, pending[i])
      case Err(e) =>
        return Err(e);
      case Ok(v) =>
        if Touches(op, pending[i]) {
          changed := changed + 1;
        }
        pending := pending[i := v];
    }
    assert db.secrets[..|pending|] == db.secrets;
    assert pending == MaintainTable(c, current, previous, op, db.secrets);
    RunMeaning(c, current, previous, op, db.secrets);
    db.secrets := pending;
    return Ok(changed);
  }

  predicate Touches(op: Maintenance, stored: Option<bytes>) {
    stored.Some? && (IsWrapped(stored.value) <==> op.Rotate?)
  }

  /** How many rows an operation rewrites. */
  function CountTouched(op: Maintenance, rows: seq<Option<bytes>>): nat {
    if rows == [] then 0
    else CountTouched(op, rows[..|rows| - 1]) + if Touches(op, rows[|rows| - 1]) then 1 else 0
  }

  /** The table after any sequence of runs, runs that raise included. */
  function History(c: Cipher, current: bytes, previous: Option<bytes>, ops: seq<Maintenance>, rows: Secrets): Secrets {
    if ops == [] then rows
    else
      MaintainTable(c, current, previous, ops[|ops| - 1], History(c, current, previous, ops[..|ops| - 1], rows))
  }

  /** The two tables give every administrator the same secret at login. */
  ghost predicate SameLogins(c: Cipher, current: bytes, previous: Option<bytes>, a: Secrets, b: Secrets) {
    |a| == |b| && forall i :: 0 <= i < |a| ==>
      LoginSecret(c, current, previous, a[i]) == LoginSecret(c, current, previous, b[i])
  }

  lemma RunKeepsLogins(c: Cipher, current: bytes, previous: Option<bytes>, op: Maintenance, rows: Secrets)
    requires Envelope.GoodKeys(current, previous)
    ensures SameLogins(c, current, previous, MaintainTable(c, current, previous, op, rows), rows)
  {
    forall i | 0 <= i < |rows|
      ensures LoginSecret(c, current, previous, MaintainTable(c, current, previous, op, rows)[i])
           == LoginSecret(c, current, previous, rows[i])
    {
      MigrateKeepsLogin(c, current, previous, rows[i]);
      RewrapKeepsLogin(c, current, previous, rows[i]);
    }
  }

  /** Whatever runs take place over the whole table, in whatever order, finished or aborted by
      some row, the secret login recovers for each administrator never changes. */
  lemma {:induction false} LoginSecretInvariant(c: Cipher, current: bytes, previous: Option<bytes>,
      ops: seq<Maintenance>, rows: Secrets)
    requires Envelope.GoodKeys(current, previous)
    ensures SameLogins(c, current, previous, History(c, current, previous, ops, rows), rows)
  {
    if ops != [] {
      var before := History(c, current, previous, ops[..|ops| - 1], rows);
      LoginSecretInvariant(c, current, previous, ops[..|ops| - 1], rows);
      RunKeepsLogins(c, current, previous, ops[|ops| - 1], before);
    }
  }

  /** Once a rotation has run through, login no longer needs the previous master key for any
      wrapped secret, nor after any further runs without it. */
  lemma RotatedTableFreesPreviousKey(c: Cipher, current: bytes, previous: Option<bytes>, rows: Secrets,
      ops: seq<Maintenance>, i: nat)
    requires Envelope.GoodKeys(current, previous) && !RunRaises(c, current, previous, Rotate, rows) && i < |rows|
    ensures var rotated := MaintainTable(c, current, previous, Rotate, rows);
            var later := History(c, current, None, ops, rotated);
            i < |later| && LoginSecret(c, current, None, later[i]) == LoginSecret(c, current, previous, rows[i])
  {
    var rotated := MaintainTable(c, current, previous, Rotate, rows);
    LoginSecretInvariant(c, current, None, ops, rotated);
    if rows[i].Some? && IsWrapped(rows[i].value) {
      RewrapFreesPreviousKey(c, current, previous, rows[i]);
    }
  }

  /** The runs themselves, one after the other on the table. */
  method RunAll(c: Cipher, current: bytes, previous: Option<bytes>, ops: seq<Maintenance>, db: AdminDb)
    requires Envelope.GoodKeys(current, previous)
    modifies db
    ensures db.secrets == History(c, current, previous, ops, old(db.secrets))
    ensures SameLogins(c, current, previous, db.secrets, old(db.secrets))
  {
    for i := 0 to |ops|
      invariant db.secrets == History(c, current, previous, ops[..i], old(db.secrets))
    {
      assert ops[..i + 1][..i] == ops[..i];
      var _ := RunMaintenance(c, current, previous, ops[i], db);
    }
    assert ops[..|ops|] == ops;
    LoginSecretInvariant(c, current, previous, ops, old(db.secrets));
  }

  /** An admin's wrapped secret, made under the previous key, is the one enrolled exactly
      when the current key does not open the same blob to another block. */
  lemma RotationWindowSecret(c: Cipher, current: bytes, previous: bytes, secret: bytes)
    requires |current| == KEY_LEN && |previous| == KEY_LEN && |secret| <= SECRET_MAX
    ensures var stored := Some(WrapSecret(c, previous, secret).value);
            LoginSecret(c, current, Some(previous), stored) == Ok(secret) <==>
              match Unwrap(c, current, stored.value)
              case None => true
              case Some(block) => |block| == BLOCK_LEN && Unpad(block) == Ok(secret)
  {
    WrapSecretOpens(c, previous, secret, None);
    OpenedBlockLength(c, current, WrapSecret(c, previous, secret).value, None);
    UnpadPad(secret);
  }
}
