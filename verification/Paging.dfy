/** Keyset paging of the admin transfer list (backend/app/routers/admin.py:81-90 and 327-364):
    newest first, with (created_at, id) as the cursor. */
module Paging {
  import opened Bytes
  import Ordering

  datatype Row = Row(createdAt: int, id: nat)

  // ---- Cursors ----

  /** How timestamps and ids are printed and read back by the platform. */
  datatype Text = Text(
    printTime: int -> string, readTime: string -> Option<int>,
    printId: nat -> string, readId: string -> Option<nat>)

  /** Printing round-trips, and a printed time has no separator in it. */
  ghost predicate Faithful(x: Text) {
    && (forall t :: x.readTime(x.printTime(t)) == Some(t) && '|' !in x.printTime(t))
    && (forall i: nat :: x.readId(x.printId(i)) == Some(i))
  }

  function EncodeCursor(x: Text, r: Row): string {
    x.printTime(r.createdAt) + "|" + x.printId(r.id)
  }

  function Separator(raw: string): (n: nat)
    ensures n <= |raw| && (forall i :: 0 <= i < n ==> raw[i] != '|') && (n < |raw| ==> raw[n] == '|')
  {
    if raw == [] || raw[0] == '|' then 0 else 1 + Separator(raw[1..])
  }

  /** Splits at the first separator; None when anything does not parse. */
  function DecodeCursor(x: Text, raw: string): Option<Row> {
    var n := Separator(raw);
    if n == |raw| then None
    else
      match (x.readTime(raw[..n]), x.readId(raw[n + 1..]))
      case (Some(t), Some(i)) => Some(Row(t, i))
      case _ => None
  }

  lemma DecodeEncode(x: Text, r: Row)
    requires Faithful(x)
    ensures DecodeCursor(x, EncodeCursor(x, r)) == Some(r)
  {
    var time, id := x.printTime(r.createdAt), x.printId(r.id);
    var raw := EncodeCursor(x, r);
    var n := Separator(raw);
    assert raw[|time|] == '|';
    assert forall i :: 0 <= i < |time| ==> raw[i] == time[i] != '|';
    assert n == |time|;
    assert raw[..n] == time && raw[n + 1..] == id;
  }

  /** The separator splits the raw cursor here for the first time, and the parts parse to the row. */
  predicate SplitsInto(x: Text, raw: string, n: nat, r: Row) {
    && n < |raw| && raw[n] == '|' && '|' !in raw[..n]
    && x.readTime(raw[..n]) == Some(r.createdAt) && x.readId(raw[n + 1..]) == Some(r.id)
  }

  lemma DecodeExactly(x: Text, raw: string, r: Row)
    ensures DecodeCursor(x, raw) == Some(r) <==> exists n :: SplitsInto(x, raw, n, r)
  {
    var m := Separator(raw);
    assert '|' !in raw[..m];
    forall n | SplitsInto(x, raw, n, r) ensures n == m {
      SeparatorIs(raw, n);
    }
    if DecodeCursor(x, raw) == Some(r) {
      assert SplitsInto(x, raw, m, r);
    }
  }

  lemma {:induction false} SeparatorIs(raw: string, n: nat)
    requires n < |raw| && raw[n] == '|' && '|' !in raw[..n]
    ensures Separator(raw) == n
  {
    if n > 0 {
      assert raw[0] in raw[..n];
      assert raw[1..][..n - 1] == raw[..n][1..];
      SeparatorIs(raw[1..], n - 1);
    }
  }

  // ---- Selection ----

  /** Row comparison: a is listed before b. */
  predicate Newer(a: Row, b: Row) {
    a.createdAt > b.createdAt || (a.createdAt == b.createdAt && a.id > b.id)
  }

  ghost predicate NewestFirst(rows: seq<Row>) {
    forall i, j :: 0 <= i < j < |rows| ==>
      rows[i].createdAt > rows[j].createdAt || (rows[i].createdAt == rows[j].createdAt && rows[i].id > rows[j].id)
  }

  ghost predicate Descending(rows: seq<Row>) {
    forall i, j :: 0 <= i < j < |rows| ==> Newer(rows[i], rows[j])
  }

  /** ORDER BY created_at DESC, id DESC. */
  function Sorted(rows: set<Row>): (s: seq<Row>)
    ensures Descending(s) && |s| == |rows|
    ensures forall r :: r in s <==> r in rows
  {
    Ordering.Sorted(rows, Newer)
  }

  function Past(rows: set<Row>, cursor: Option<Row>): set<Row> {
    set r | r in rows && (cursor.Some? ==> Newer(cursor.value, r))
  }

  function Clamp(limit: int): (n: nat)
    ensures 1 <= n <= 200
  {
    Max(1, Min(limit, 200))
  }

  /** One request: the page's items and the next cursor. A cursor that does not parse is
      ignored, which restarts from the first page. */
  method ListPage(x: Text, rows: set<Row>, limit: int, cursor: Option<string>)
    returns (items: seq<Row>, next: Option<string>)
    ensures var from := if cursor.Some? then DecodeCursor(x, cursor.value) else None;
            var rest := Past(rows, from);
            && FirstOf(items, rest)
            && |items| == Min(Clamp(limit), |rest|)
            && next == if |rest| > Clamp(limit) then Some(EncodeCursor(x, items[|items| - 1])) else None
  {
    var n := Clamp(limit);
    var from := if cursor.Some? then DecodeCursor(x, cursor.value) else None;
    ghost var rest := Past(rows, from);
    ghost var all := Sorted(rest);
    var fetched := Sorted(Past(rows, from));
    fetched := fetched[..Min(n + 1, |fetched|)];
    var hasMore := |fetched| > n;
    items := fetched[..Min(n, |fetched|)];
    next := if hasMore && items != [] then Some(EncodeCursor(x, items[|items| - 1])) else None;
    assert items == all[..|items|];
    PrefixComesFirst(all, rest, |items|);
  }

  /** The order, the size and the cursor of a page, in numbers and characters. */
  lemma PageMeaning(x: Text, items: seq<Row>, rows: set<Row>, limit: int, from: Option<Row>)
    requires FirstOf(items, Past(rows, from))
    ensures NewestFirst(items)
    ensures forall a :: a in items && from.Some? ==>
              a.createdAt < from.value.createdAt || (a.createdAt == from.value.createdAt && a.id < from.value.id)
    ensures from.None? ==>
              forall a, b :: a in items && b in rows && b !in items ==>
                a.createdAt > b.createdAt || (a.createdAt == b.createdAt && a.id > b.id)
    ensures Clamp(limit) == if limit < 1 then 1 else if limit > 200 then 200 else limit
    ensures forall r :: EncodeCursor(x, r) == x.printTime(r.createdAt) + "|" + x.printId(r.id)
  {
    assert from.None? ==> Past(rows, from) == rows;
    forall a | a in items ensures a in Past(rows, from) {
      assert a in Elements(items);
    }
  }

  lemma PrefixComesFirst(all: seq<Row>, rows: set<Row>, n: nat)
    requires Descending(all) && n <= |all| && forall r :: r in all <==> r in rows
    ensures FirstOf(all[..n], rows)
  {
    forall a, b | a in all[..n] && b in rows && b !in all[..n] ensures Newer(a, b) {
      assert b in all;
      var i :| 0 <= i < n && all[i] == a;
      var j :| 0 <= j < |all| && all[j] == b;
      assert forall k :: 0 <= k < n ==> all[k] in all[..n];
      assert j >= n;
    }
  }

  lemma DistinctCount(rows: seq<Row>)
    requires Descending(rows)
    ensures |Elements(rows)| == |rows|
  {
    if rows != [] {
      var init := rows[..|rows| - 1];
      DistinctCount(init);
      var last := rows[|rows| - 1];
      assert rows == init + [last];
      assert last !in init;
      assert Elements(rows) == Elements(init) + {last};
    }
  }

  lemma DescendingConcat(a: seq<Row>, b: seq<Row>)
    requires Descending(a) && Descending(b)
    requires forall r, q :: r in a && q in b ==> Newer(r, q)
    ensures Descending(a + b)
  {
  }

  /** Pages needed for n rows; even an empty list takes one request. */
  function PageCount(n: nat, limit: nat): nat
    requires limit > 0
  {
    if n <= limit then 1 else 1 + PageCount(n - limit, limit)
  }

  /** That is max(1, n / limit rounded up). */
  lemma {:induction false} PageCountIsCeiling(n: nat, limit: nat)
    requires limit > 0
    ensures n <= PageCount(n, limit) * limit
    ensures PageCount(n, limit) > 1 ==> (PageCount(n, limit) - 1) * limit < n
  {
    if n > limit {
      PageCountIsCeiling(n - limit, limit);
      var p := PageCount(n - limit, limit);
      assert (1 + p) * limit == limit + p * limit;
      assert p > 1 ==> (p - 1) * limit + limit == p * limit;
    }
  }

  /** What has been seen, in order, is newer than and disjoint from what is left; together
      they are the table. */
  ghost predicate Walked(table: set<Row>, seen: seq<Row>, left: set<Row>) {
    && Descending(seen) && Elements(seen) + left == table && Elements(seen) !! left
    && forall a, b :: a in seen && b in left ==> Newer(a, b)
  }

  ghost predicate FirstOf(items: seq<Row>, left: set<Row>) {
    && Descending(items) && Elements(items) <= left
    && forall a, b :: a in items && b in left && b !in items ==> Newer(a, b)
  }

  lemma WalkOnePage(table: set<Row>, seen: seq<Row>, left: set<Row>, items: seq<Row>)
    requires Walked(table, seen, left) && FirstOf(items, left)
    ensures Walked(table, seen + items, left - Elements(items))
    ensures |left - Elements(items)| == |left| - |items|
  {
    DescendingConcat(seen, items);
    DistinctCount(items);
    assert Elements(seen + items) == Elements(seen) + Elements(items);
    assert left == (left - Elements(items)) + Elements(items);
  }

  /** The last page shows all that was left. */
  lemma LastPage(table: set<Row>, seen: seq<Row>, left: set<Row>, items: seq<Row>)
    requires Walked(table, seen, left) && FirstOf(items, left) && |items| == |left|
    ensures Descending(seen + items) && Elements(seen + items) == table && |seen + items| == |table|
    ensures NewestFirst(seen + items)
  {
    WalkOnePage(table, seen, left, items);
    DistinctCount(seen + items);
  }

  /** Any other page is followed by a request for the rest. */
  lemma TurnPage(x: Text, table: set<Row>, seen: seq<Row>, rows: set<Row>, from: Option<Row>, left: set<Row>,
      items: seq<Row>, added: set<Row>)
    requires Faithful(x) && items != [] && FirstOf(items, left)
    requires left == Past(rows, from) && Walked(table, seen, left)
    requires forall r :: r in added ==> Newer(r, items[|items| - 1])
    ensures var last := items[|items| - 1];
            && Past(rows + added, Some(last)) == left - Elements(items)
            && DecodeCursor(x, EncodeCursor(x, last)) == Some(last)
            && Walked(table, seen + items, left - Elements(items))
            && |left - Elements(items)| == |left| - |items|
  {
    WalkOnePage(table, seen, left, items);
    DecodeEncode(x, items[|items| - 1]);
    PastLast(rows, left, items, from, added);
  }

  /** The cursor at the last row of a page leaves exactly the rows not yet seen, whatever
      newer rows have appeared. */
  lemma PastLast(rows: set<Row>, left: set<Row>, items: seq<Row>, from: Option<Row>, added: set<Row>)
    requires items != [] && FirstOf(items, left) && left == Past(rows, from)
    requires forall r :: r in added ==> Newer(r, items[|items| - 1])
    ensures Past(rows + added, Some(items[|items| - 1])) == left - Elements(items)
  {
    var last := items[|items| - 1];
    assert last in Elements(items);
    forall r | r in rows + added
      ensures Newer(last, r) <==> r in left - Elements(items)
    {
      if r in Elements(items) {
        var i :| 0 <= i < |items| && items[i] == r;
      }
    }
  }

  /** Following the cursors from the start, while rows newer than the cursor are inserted
      between requests (`inserted(k)` after k + 1 of them): every row of the table as it was is
      seen exactly once, newest first, however many rows share a timestamp, in exactly
      PageCount pages; nothing inserted behind the reader's back is skipped into or
      repeated. */
  method WalkAllPages(x: Text, table: set<Row>, limit: int, inserted: nat -> set<Row>)
    returns (seen: seq<Row>, pages: nat)
    requires Faithful(x)
    ensures Descending(seen) && Elements(seen) == table && |seen| == |table|
    ensures NewestFirst(seen)
    ensures pages == PageCount(|table|, Clamp(limit))
  {
    var rows := table;
    var cursor: Option<string> := None;
    ghost var from: Option<Row>, left := None, table;
    seen, pages := [], 0;
    while true
      invariant from == if cursor.Some? then DecodeCursor(x, cursor.value) else None
      invariant left == Past(rows, from) && Walked(table, seen, left)
      invariant pages + PageCount(|left|, Clamp(limit)) == PageCount(|table|, Clamp(limit))
      decreases |left|
    {
      var items, next := ListPage(x, rows, limit, cursor);
      if next.None? {
        LastPage(table, seen, left, items);
        return seen + items, pages + 1;
      }
      var last := items[|items| - 1];
      var added := set r | r in inserted(pages) && Newer(r, last);
      TurnPage(x, table, seen, rows, from, left, items, added);
      seen, pages := seen + items, pages + 1;
      rows, cursor := rows + added, next;
      from, left := Some(last), left - Elements(items);
    }
  }
}
