/** Master-key rotation over the transfers table: the keyset-paged, chunk-committed loop
    (backend/scripts/rotate_master_key.py and the online endpoint in
    backend/app/routers/admin.py), its crash and rerun, and its interleaving with the
    handlers that commit and shred keys meanwhile. */
module Rotation {
  import opened Bytes
  import opened KeyWrap
  import opened Envelope
  import Ordering

  type Id = nat

  /** The wrapped_key column: None is SQL NULL. */
  type Table = map<Id, Option<bytes>>

  function Keyed(t: Table): set<Id> {
    set id | id in t && t[id].Some?
  }

  // ---- Ordered selection ----

  ghost predicate Ascending(s: seq<Id>) {
    forall i, j :: 0 <= i < j < |s| ==> s[i] < s[j]
  }

  predicate Less(a: Id, b: Id) {
    a < b
  }

  /** ORDER BY id. */
  function InOrder(s: set<Id>): (r: seq<Id>)
    ensures Ascending(r)
    ensures forall x :: x in r <==> x in s
  {
    Ordering.Sorted(s, Less)
  }

  function Above(ids: set<Id>, after: Option<Id>): set<Id> {
    set id | id in ids && (after.Some? ==> after.value < id)
  }

  function Take(s: seq<Id>, limit: nat): seq<Id> {
    s[..Min(limit, |s|)]
  }

  /** One page of the keyset query: keyed rows past the cursor, by id, at most `limit`. */
  function SelectPage(t: Table, after: Option<Id>, limit: nat): seq<Id> {
    Take(InOrder(Above(Keyed(t), after)), limit)
  }

  /** Nothing between the cursor and the end of a page is skipped. */
  lemma PageCovers(t: Table, after: Option<Id>, limit: nat)
    requires limit > 0
    ensures var page := SelectPage(t, after, limit);
            && Ascending(page)
            && (forall id :: id in page ==> id in Above(Keyed(t), after))
            && (page == [] ==> Above(Keyed(t), after) == {})
            && (page != [] ==> forall id :: id in Above(Keyed(t), after) && id <= page[|page| - 1] ==> id in page)
  {
    var above := Above(Keyed(t), after);
    var all := InOrder(above);
    var page := SelectPage(t, after, limit);
    if page == [] {
      assert forall id :: id in above ==> id in all;
    } else {
      forall id | id in above && id <= page[|page| - 1] ensures id in page {
        assert id in all;
        var i :| 0 <= i < |all| && all[i] == id;
        assert all[|page| - 1] == page[|page| - 1];
        assert i < |page|;
        assert page[i] == id;
      }
    }
  }

  // ---- What migrating means ----

  /** The blob after a rotation: rewrapped if either key opens it, else untouched. */
  function Rewrapped(c: Cipher, current: bytes, previous: bytes, blob: bytes): bytes {
    match Rewrap(c, current, Some(previous), blob)
    case Ok(b) => b
    case Err(_) => blob
  }

  function Migrate(c: Cipher, current: bytes, previous: bytes, t: Table, ids: set<Id>): Table {
    map id | id in t ::
      if id in ids && t[id].Some? then Some(Rewrapped(c, current, previous, t[id].value)) else t[id]
  }

  lemma RewrappedTwice(c: Cipher, current: bytes, previous: bytes, blob: bytes)
    ensures Rewrapped(c, current, previous, Rewrapped(c, current, previous, blob))
         == Rewrapped(c, current, previous, blob)
  {
    match UnwrapKey(c, current, blob, Some(previous))
    case Ok(fileKey) => RewrapKeepsFileKey(c, current, Some(previous), blob, fileKey);
    case Err(_) =>
  }

  lemma MigrateTwice(c: Cipher, current: bytes, previous: bytes, t: Table, part: set<Id>, all: set<Id>)
    requires part <= all
    ensures Migrate(c, current, previous, Migrate(c, current, previous, t, part), all)
         == Migrate(c, current, previous, t, all)
  {
    forall id | id in t && t[id].Some?
      ensures Rewrapped(c, current, previous, Rewrapped(c, current, previous, t[id].value))
           == Rewrapped(c, current, previous, t[id].value)
    {
      RewrappedTwice(c, current, previous, t[id].value);
    }
  }

  function MigrateParts(c: Cipher, current: bytes, previous: bytes, t: Table, parts: seq<set<Id>>): Table {
    if parts == [] then t
    else Migrate(c, current, previous, MigrateParts(c, current, previous, t, parts[..|parts| - 1]), parts[|parts| - 1])
  }

  /** Any number of runs cut short, each having migrated some part of the table, followed
      by one complete run, leave exactly the table of a single uninterrupted run; and a
      further run changes no byte. */
  lemma {:induction false} CrashAndRerun(c: Cipher, current: bytes, previous: bytes, t: Table, parts: seq<set<Id>>)
    requires forall i :: 0 <= i < |parts| ==> parts[i] <= Keyed(t)
    ensures var partial := MigrateParts(c, current, previous, t, parts);
            && Keyed(partial) == Keyed(t)
            && Migrate(c, current, previous, partial, Keyed(partial)) == Migrate(c, current, previous, t, Keyed(t))
    ensures var final := Migrate(c, current, previous, t, Keyed(t));
            Migrate(c, current, previous, final, Keyed(final)) == final
  {
    var all := Keyed(t);
    var final := Migrate(c, current, previous, t, all);
    assert Keyed(final) == all;
    MigrateTwice(c, current, previous, t, all, all);
    if parts != [] {
      var init, last := parts[..|parts| - 1], parts[|parts| - 1];
      CrashAndRerun(c, current, previous, t, init);
      var before := MigrateParts(c, current, previous, t, init);
      assert Keyed(Migrate(c, current, previous, before, last)) == Keyed(before);
      MigrateTwice(c, current, previous, before, last, all);
    }
  }

  // ---- The loop ----

  class TransferDb {
    var rows: Table

    constructor (t: Table)
      ensures rows == t
    {
      rows := t;
    }
  }

  datatype Outcome = Finished(count: nat) | Failed(error: EnvelopeError) | Crashed

  lemma MigrateOneMore(c: Cipher, current: bytes, previous: bytes, t: Table, done: seq<Id>, id: Id)
    requires id in Keyed(t) && id !in done
    ensures var m := Migrate(c, current, previous, t, Elements(done));
            && m[id] == t[id]
            && (Rewrap(c, current, Some(previous), t[id].value).Ok? ==>
                  m[id := Some(Rewrap(c, current, Some(previous), t[id].value).value)]
                    == Migrate(c, current, previous, t, Elements(done + [id])))
  {
    assert Elements(done + [id]) == Elements(done) + {id};
  }

  lemma MigrateAppend(c: Cipher, current: bytes, previous: bytes, t: Table, done: seq<Id>, page: seq<Id>)
    requires forall id :: id in page ==> id !in done
    ensures Migrate(c, current, previous, Migrate(c, current, previous, t, Elements(done)), Elements(page))
         == Migrate(c, current, previous, t, Elements(done + page))
  {
    assert Elements(done + page) == Elements(done) + Elements(page);
  }

  ghost predicate AllOpen(c: Cipher, current: bytes, previous: bytes, t: Table, ids: seq<Id>) {
    forall id :: id in ids ==> id in Keyed(t) && Rewrap(c, current, Some(previous), t[id].value).Ok?
  }

  /** The rows of one chunk, rewrapped in the session but not yet committed. */
  method RewrapPage(c: Cipher, current: bytes, previous: bytes, rows: Table, page: seq<Id>)
    returns (r: Result<Table, EnvelopeError>)
    requires Ascending(page) && forall id :: id in page ==> id in Keyed(rows)
    ensures r.Ok? ==>
              && r.value == Migrate(c, current, previous, rows, Elements(page))
              && AllOpen(c, current, previous, rows, page)
    ensures r.Err? ==>
              exists id :: id in page && id in Keyed(rows)
                && Rewrap(c, current, Some(previous), rows[id].value) == Err(r.error)
  {
    var pending := rows;
    assert page[..0] == [] && Elements(page[..0]) == {};
    for i := 0 to |page|
      invariant pending == Migrate(c, current, previous, rows, Elements(page[..i]))
      invariant AllOpen(c, current, previous, rows, page[..i])
    {
      var id := page[i];
      MigrateOneMore(c, current, previous, rows, page[..i], id);
      assert page[..i] + [id] == page[..i + 1];
      match Rewrap(c, current, Some(previous), pending[id].value)
      case Err(e) =>
        return Err(e);
      case Ok(b) =>
        pending := pending[id := Some(b)];
    }
    assert page[..|page|] == page;
    return Ok(pending);
  }

  /** `visited` lists ids of the table in strictly increasing order (so none twice) and
      has skipped no id below the last one listed. */
  ghost predicate Swept(ids: set<Id>, visited: seq<Id>) {
    && Ascending(visited)
    && (forall v :: v in visited ==> v in ids)
    && (forall id :: id in ids && visited != [] && id <= visited[|visited| - 1] ==> id in visited)
  }

  function LastOf(visited: seq<Id>): Option<Id> {
    if visited == [] then None else Some(visited[|visited| - 1])
  }

  lemma AboveLast(ids: set<Id>, visited: seq<Id>)
    requires Swept(ids, visited)
    ensures Above(ids, LastOf(visited)) == ids - Elements(visited)
  {
    forall id | id in visited ensures visited != [] && id <= visited[|visited| - 1] {
      var i :| 0 <= i < |visited| && visited[i] == id;
    }
  }

  lemma NextPage(t: Table, visited: seq<Id>, limit: nat)
    requires Swept(Keyed(t), visited) && limit > 0
    ensures var page := SelectPage(t, LastOf(visited), limit);
            if page == [] then Elements(visited) == Keyed(t)
            else
              && Ascending(page) && Swept(Keyed(t), visited + page)
              && (forall id :: id in page ==> id in Keyed(t) && id !in visited)
              && page[0] in Keyed(t) - Elements(visited)
              && LastOf(visited + page) == LastOf(page)
  {
    var page := SelectPage(t, LastOf(visited), limit);
    PageCovers(t, LastOf(visited), limit);
    AboveLast(Keyed(t), visited);
    if page == [] {
      forall id | id in Keyed(t) ensures id in visited {
        assert id !in Above(Keyed(t), LastOf(visited));
      }
    } else {
      assert page[0] in Above(Keyed(t), LastOf(visited));
      AscendingConcat(visited, page);
      assert (visited + page)[|visited + page| - 1] == page[|page| - 1];
    }
  }

  lemma AscendingConcat(a: seq<Id>, b: seq<Id>)
    requires Ascending(a) && Ascending(b)
    requires a != [] && b != [] ==> a[|a| - 1] < b[0]
    ensures Ascending(a + b)
  {
  }

  lemma PageProgress(ids: set<Id>, visited: seq<Id>, page: seq<Id>)
    requires page != [] && page[0] in ids && page[0] !in visited
    ensures LastOf(visited + page) == LastOf(page)
    ensures ids - Elements(visited + page) < ids - Elements(visited)
  {
    assert page[0] in Elements(visited + page) && page[0] in ids - Elements(visited);
    assert Elements(visited + page) == Elements(visited) + Elements(page);
  }

  /** How far a run has come: the rows visited are an initial part of the keyed rows in id
      order, all of them could be opened, and the table is `t` with exactly those migrated. */
  ghost predicate Reached(c: Cipher, current: bytes, previous: bytes, t: Table, visited: seq<Id>, rows: Table) {
    && Swept(Keyed(t), visited)
    && AllOpen(c, current, previous, t, visited)
    && rows == Migrate(c, current, previous, t, Elements(visited))
  }

  lemma Untouched(c: Cipher, current: bytes, previous: bytes, t: Table, visited: seq<Id>, rows: Table)
    requires Reached(c, current, previous, t, visited, rows)
    ensures Keyed(rows) == Keyed(t)
    ensures forall id :: id in Keyed(t) && id !in visited ==> rows[id] == t[id]
  {
  }

  /** Selects, rewraps and commits one chunk. An empty page means nothing is left; a row that
      neither key opens rolls the chunk back. */
  method RotateChunk(c: Cipher, current: bytes, previous: bytes, db: TransferDb, ghost t: Table,
      ghost visited: seq<Id>, lastId: Option<Id>, chunk: nat)
    returns (r: Result<seq<Id>, EnvelopeError>)
    requires chunk > 0 && lastId == LastOf(visited)
    requires Reached(c, current, previous, t, visited, db.rows)
    modifies db
    ensures r.Err? ==> db.rows == old(db.rows)
    ensures r.Err? ==>
              exists id :: id in Keyed(t) && id !in visited
                && Rewrap(c, current, Some(previous), t[id].value) == Err(r.error)
    ensures r.Ok? ==> Reached(c, current, previous, t, visited + r.value, db.rows)
    ensures r == Ok([]) ==> Elements(visited) == Keyed(t)
    ensures r.Ok? && r.value != [] ==>
              && LastOf(visited + r.value) == LastOf(r.value)
              && Keyed(t) - Elements(visited + r.value) < Keyed(t) - Elements(visited)
  {
    Untouched(c, current, previous, t, visited, db.rows);
    var page := SelectPage(db.rows, lastId, chunk);
    NextPage(db.rows, visited, chunk);
    if page == [] {
      assert visited + page == visited;
      return Ok([]);
    }
    var pending := RewrapPage(c, current, previous, db.rows, page);
    if pending.Err? {
      return Err(pending.error);
    }
    MigrateAppend(c, current, previous, t, visited, page);
    PageProgress(Keyed(t), visited, page);
    db.rows := pending.value;
    return Ok(page);
  }

  /** One run of the rotation loop. It may stop at any chunk boundary (a crash) or at a
      row neither key opens (the chunk in progress is rolled back). In every case the
      rows visited are an initial part of the keyed rows in id order, each visited once,
      and the table is the old one with exactly those rows migrated. */
  method RotateTransfers(c: Cipher, previous: bytes, current: bytes, db: TransferDb, chunk: nat)
    returns (outcome: Outcome, visited: seq<Id>)
    requires chunk > 0
    modifies db
    ensures Reached(c, current, previous, old(db.rows), visited, db.rows)
    ensures outcome.Finished? ==> Elements(visited) == Keyed(old(db.rows)) && outcome.count == |visited|
    ensures outcome.Failed? ==>
              exists id :: id in Keyed(old(db.rows)) && id !in visited
                && Rewrap(c, current, Some(previous), old(db.rows)[id].value) == Err(outcome.error)
  {
    ghost var t := db.rows;
    var lastId: Option<Id> := None;
    var count := 0;
    visited := [];
    while true
      invariant count == |visited| && lastId == LastOf(visited)
      invariant Reached(c, current, previous, t, visited, db.rows)
      decreases Keyed(t) - Elements(visited)
    {
      var page := RotateChunk(c, current, previous, db, t, visited, lastId, chunk);
      if page.Err? {
        return Failed(page.error), visited;
      }
      if page.value == [] {
        return Finished(count), visited;
      }
      visited := visited + page.value;
      count, lastId := count + |page.value|, LastOf(page.value);
      if * {
        return Crashed, visited;
      }
    }
  }

  /** Running the rotation again and again, with whatever chunk sizes, until a run finishes or
      the attempts are used up. However many runs crashed or failed before, and wherever, the
      table is then the one of a single uninterrupted run, every key could be opened, and one
      more run changes no byte. Until then no row has been changed but by migrating it. */
  method RotateUntilFinished(c: Cipher, previous: bytes, current: bytes, db: TransferDb, chunks: seq<nat>)
    returns (finished: bool)
    requires forall i :: 0 <= i < |chunks| ==> chunks[i] > 0
    modifies db
    ensures Keyed(db.rows) == Keyed(old(db.rows))
    ensures Migrate(c, current, previous, db.rows, Keyed(db.rows))
         == Migrate(c, current, previous, old(db.rows), Keyed(old(db.rows)))
    ensures finished ==> db.rows == Migrate(c, current, previous, old(db.rows), Keyed(old(db.rows)))
    ensures finished ==> forall id :: id in Keyed(db.rows) ==> UnwrapKey(c, current, db.rows[id].value, None).Ok?
  {
    ghost var t := db.rows;
    ghost var parts: seq<set<Id>> := [];
    for i := 0 to |chunks|
      invariant forall j :: 0 <= j < |parts| ==> parts[j] <= Keyed(t)
      invariant db.rows == MigrateParts(c, current, previous, t, parts)
    {
      CrashAndRerun(c, current, previous, t, parts);
      ghost var before := db.rows;
      var outcome, visited := RotateTransfers(c, previous, current, db, chunks[i]);
      parts := parts + [Elements(visited)];
      assert parts[..|parts| - 1] + [Elements(visited)] == parts;
      if outcome.Finished? {
        FinishedOpensAll(c, current, previous, before, visited, db.rows);
        CrashAndRerun(c, current, previous, t, []);
        return true;
      }
    }
    CrashAndRerun(c, current, previous, t, parts);
    return false;
  }

  lemma FinishedOpensAll(c: Cipher, current: bytes, previous: bytes, t: Table, visited: seq<Id>, rows: Table)
    requires Reached(c, current, previous, t, visited, rows) && Elements(visited) == Keyed(t)
    ensures forall id :: id in Keyed(rows) ==> UnwrapKey(c, current, rows[id].value, None).Ok?
  {
    forall id | id in Keyed(rows) ensures UnwrapKey(c, current, rows[id].value, None).Ok? {
      assert id in Elements(visited);
      var fileKey := UnwrapKey(c, current, t[id].value, Some(previous)).value;
      RewrapKeepsFileKey(c, current, Some(previous), t[id].value, fileKey);
      assert GoodKeys(current, None);
    }
  }

  // ---- Rotation under concurrent commits and shreds ----

  /** `origin` remembers, for the statement only, the file key each row was wrapped from. */
  datatype Online = Online(rows: Table, origin: map<Id, bytes>, lastId: Option<Id>, finished: bool)

  datatype Event =
    | Chunk(limit: nat)                       // one chunk of the rewrap loop, atomic
    | EncryptCommit(id: Id, fileKey: bytes)   // the worker stores a key, under the current master
    | Shred(id: Id)                           // delete or expiry sets the key to NULL
    | Restart                                 // the rewrap request dies and is issued again

  /** Some row of the chunk opens under neither key: the request fails and rolls back. */
  predicate Abandoned(c: Cipher, current: bytes, previous: bytes, rows: Table, page: seq<Id>) {
    exists id :: id in page && id in rows && rows[id].Some? && Rewrap(c, current, Some(previous), rows[id].value).Err?
  }

  function Apply(c: Cipher, current: bytes, previous: bytes, s: Online, e: Event): Online {
    match e
    case Restart => s.(lastId := None)
    case Shred(id) => if id in s.rows then s.(rows := s.rows[id := None]) else s
    case EncryptCommit(id, fileKey) =>
      if (id in s.rows && s.rows[id].Some?) || WrapKey(c, current, fileKey).Err? then s
      else s.(rows := s.rows[id := Some(WrapKey(c, current, fileKey).value)], origin := s.origin[id := fileKey])
    case Chunk(limit) =>
      var page := SelectPage(s.rows, s.lastId, limit);
      if page == [] then s.(finished := true, lastId := None)
      else if Abandoned(c, current, previous, s.rows, page) then s.(lastId := None)
      else s.(rows := Migrate(c, current, previous, s.rows, Elements(page)), lastId := Some(page[|page| - 1]))
  }

  /** One chunk of the online loop, as it is computed. */
  method RunChunk(c: Cipher, current: bytes, previous: bytes, rows: Table, lastId: Option<Id>, finished: bool,
      ghost origin: map<Id, bytes>, limit: nat)
    returns (rows': Table, lastId': Option<Id>, finished': bool)
    requires limit > 0
    ensures Online(rows', origin, lastId', finished')
         == Apply(c, current, previous, Online(rows, origin, lastId, finished), Chunk(limit))
  {
    var page := SelectPage(rows, lastId, limit);
    if page == [] {
      return rows, None, true;
    }
    PageCovers(rows, lastId, limit);
    var pending := RewrapPage(c, current, previous, rows, page);
    if pending.Err? {
      assert Abandoned(c, current, previous, rows, page);
      return rows, None, finished;
    }
    assert !Abandoned(c, current, previous, rows, page);
    return pending.value, Some(page[|page| - 1]), finished;
  }

  /** One keyed row through one chunk: it is rewrapped or left alone, and rewrapped if the cursor
      moved past it; the loop ends only when the cursor is past it already. */
  lemma ChunkOnRow(c: Cipher, current: bytes, previous: bytes, s: Online, limit: nat, id: Id)
    requires limit > 0 && id in Keyed(s.rows)
    ensures var s' := Apply(c, current, previous, s, Chunk(limit));
            var rewrapped := Some(Rewrapped(c, current, previous, s.rows[id].value));
            && id in s'.rows && (s'.rows[id] == s.rows[id] || s'.rows[id] == rewrapped)
            && (s'.lastId.Some? && id <= s'.lastId.value && !(s.lastId.Some? && id <= s.lastId.value) ==>
                  s'.rows[id] == rewrapped)
            && (s'.finished && !s.finished ==> s.lastId.Some? && id <= s.lastId.value)
  {
    PageCovers(s.rows, s.lastId, limit);
    assert id in Above(Keyed(s.rows), s.lastId) <==> !(s.lastId.Some? && id <= s.lastId.value);
  }

  function Run(c: Cipher, current: bytes, previous: bytes, s: Online, events: seq<Event>): Online {
    if events == [] then s
    else Apply(c, current, previous, Run(c, current, previous, s, events[..|events| - 1]), events[|events| - 1])
  }

  /** The row opens, with the fallback, to the key it was wrapped from. */
  predicate Opens(c: Cipher, current: bytes, previous: Option<bytes>, s: Online, id: Id)
    requires id in s.rows && s.rows[id].Some?
  {
    id in s.origin && UnwrapKey(c, current, s.rows[id].value, previous) == Ok(s.origin[id])
  }

  /** Every key opens to its file key; rows the loop has passed, and all rows once it has
      ended, open under the current master key alone. */
  ghost predicate Meaningful(c: Cipher, current: bytes, previous: bytes, s: Online) {
    forall id :: id in Keyed(s.rows) ==>
      && Opens(c, current, Some(previous), s, id)
      && (s.finished || (s.lastId.Some? && id <= s.lastId.value) ==> Opens(c, current, None, s, id))
  }

  predicate MasterKeys(current: bytes, previous: bytes) {
    |current| == KEY_LEN && |previous| == KEY_LEN && current != previous
  }

  lemma {:induction false} ChunkKeepsMeaning(c: Cipher, current: bytes, previous: bytes, s: Online, limit: nat)
    requires MasterKeys(current, previous) && limit > 0
    requires Meaningful(c, current, previous, s)
    ensures Meaningful(c, current, previous, Apply(c, current, previous, s, Chunk(limit)))
  {
    var page := SelectPage(s.rows, s.lastId, limit);
    var s' := Apply(c, current, previous, s, Chunk(limit));
    PageCovers(s.rows, s.lastId, limit);
    forall id | id in Keyed(s'.rows)
      ensures Opens(c, current, Some(previous), s', id)
      ensures s'.finished || (s'.lastId.Some? && id <= s'.lastId.value) ==> Opens(c, current, None, s', id)
    {
      assert id in Keyed(s.rows);
      assert Opens(c, current, Some(previous), s, id);
      if id in page && !Abandoned(c, current, previous, s.rows, page) {
        RewrapKeepsFileKey(c, current, Some(previous), s.rows[id].value, s.origin[id]);
        assert GoodKeys(current, None) && GoodKeys(current, Some(previous));
      } else if page == [] {
        assert id !in Above(Keyed(s.rows), s.lastId);
      } else if s'.lastId.Some? && id <= s'.lastId.value {
        assert id !in Above(Keyed(s.rows), s.lastId);
      }
    }
  }

  /** While the invariant holds, no chunk is ever abandoned. */
  lemma ChunkSucceeds(c: Cipher, current: bytes, previous: bytes, s: Online, limit: nat)
    requires Meaningful(c, current, previous, s)
    ensures !Abandoned(c, current, previous, s.rows, SelectPage(s.rows, s.lastId, limit))
  {
    forall id | id in s.rows && s.rows[id].Some? ensures Rewrap(c, current, Some(previous), s.rows[id].value).Ok? {
      assert id in Keyed(s.rows);
      RewrapKeepsFileKey(c, current, Some(previous), s.rows[id].value, s.origin[id]);
    }
  }

  lemma {:induction false} EventKeepsMeaning(c: Cipher, current: bytes, previous: bytes, s: Online, e: Event)
    requires MasterKeys(current, previous) && (e.Chunk? ==> e.limit > 0)
    requires Meaningful(c, current, previous, s)
    ensures Meaningful(c, current, previous, Apply(c, current, previous, s, e))
  {
    match e
    case Chunk(limit) => ChunkKeepsMeaning(c, current, previous, s, limit);
    case Restart =>
      forall id | id in Keyed(s.rows) ensures Opens(c, current, Some(previous), s, id) { }
    case Shred(id) =>
      var s' := Apply(c, current, previous, s, e);
      forall x | x in Keyed(s'.rows)
        ensures Opens(c, current, Some(previous), s', x) <==> Opens(c, current, Some(previous), s, x)
        ensures Opens(c, current, None, s', x) <==> Opens(c, current, None, s, x) { }
    case EncryptCommit(id, fileKey) =>
      var s' := Apply(c, current, previous, s, e);
      if WrapKey(c, current, fileKey).Ok? {
        var blob := WrapKey(c, current, fileKey).value;
        UnwrapsTo(c, current, blob, fileKey);
        forall x | x in Keyed(s'.rows) && x != id ensures x in Keyed(s.rows) { }
      }
  }

  /** Over every interleaving of rewrap chunks of any size, restarts, encrypt commits and
      shreds: every stored key opens at all times to the file key it was made from, and
      from the moment a rewrap loop has ended every key opens without the previous
      master key. */
  lemma {:induction false} RotationPreservesMeaning(c: Cipher, current: bytes, previous: bytes, s: Online,
      events: seq<Event>)
    requires MasterKeys(current, previous)
    requires forall e :: e in events && e.Chunk? ==> e.limit > 0
    requires Meaningful(c, current, previous, s)
    ensures Meaningful(c, current, previous, Run(c, current, previous, s, events))
  {
    if events != [] {
      var init, last := events[..|events| - 1], events[|events| - 1];
      RotationPreservesMeaning(c, current, previous, s, init);
      EventKeepsMeaning(c, current, previous, Run(c, current, previous, s, init), last);
    }
  }

  /** A row without a key gets one only from an encrypt commit: rewrapping and shredding
      never bring a key back. */
  lemma {:induction false} NullStaysNull(c: Cipher, current: bytes, previous: bytes, s: Online, events: seq<Event>,
      id: Id)
    requires id !in Keyed(s.rows)
    requires forall e :: e in events && e.EncryptCommit? ==> e.id != id
    ensures id !in Keyed(Run(c, current, previous, s, events).rows)
  {
    if events != [] {
      var init := events[..|events| - 1];
      NullStaysNull(c, current, previous, s, init, id);
      EventKeepsNull(c, current, previous, Run(c, current, previous, s, init), events[|events| - 1], id);
    }
  }

  lemma EventKeepsNull(c: Cipher, current: bytes, previous: bytes, s: Online, e: Event, id: Id)
    requires id !in Keyed(s.rows) && (e.EncryptCommit? ==> e.id != id)
    ensures id !in Keyed(Apply(c, current, previous, s, e).rows)
  {
    match e
    case Chunk(limit) =>
      var page := SelectPage(s.rows, s.lastId, limit);
      assert id !in Keyed(Migrate(c, current, previous, s.rows, Elements(page)));
    case _ =>
  }

  /** When the rotation window opens, every row is the previous key's wrapping of its file
      key. Those rows are meaningful exactly when no blob also unwraps, under the new key,
      to something else. */
  lemma WindowOpens(c: Cipher, current: bytes, previous: bytes, origin: map<Id, bytes>)
    requires MasterKeys(current, previous)
    requires forall id :: id in origin ==> |origin[id]| == KEY_LEN
    ensures var rows: Table := map id | id in origin :: Some(Wrap(c, previous, origin[id]));
            Meaningful(c, current, previous, Online(rows, origin, None, false)) <==>
              forall id, k ::
                id in origin && WrappedBy(c, current, Wrap(c, previous, origin[id]), k) ==> k == origin[id]
  {
    var rows: Table := map id | id in origin :: Some(Wrap(c, previous, origin[id]));
    var s := Online(rows, origin, None, false);
    forall id | id in origin
      ensures Opens(c, current, Some(previous), s, id) <==>
                forall k :: WrappedBy(c, current, Wrap(c, previous, origin[id]), k) ==> k == origin[id]
    {
      FallbackRecovers(c, current, previous, origin[id]);
    }
    assert forall id :: id in Keyed(rows) <==> id in origin;
  }
}
