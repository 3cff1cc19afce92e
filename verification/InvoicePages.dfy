/** Keyset pagination of invoices, newest first. */
module InvoicePages {
  import opened Results

  /** The two columns that order a page. Primary keys are unique, so a table holds a row once. */
  datatype Row = Row(createdAt: int, pk: int)

  const MAX_PAGE_SIZE: int := 200

  predicate Above(a: Row, b: Row)
  {
    a.createdAt > b.createdAt || (a.createdAt == b.createdAt && a.pk > b.pk)
  }

  /** The cursor condition; the first page has no cursor. */
  predicate Past(cursor: Option<Row>, row: Row)
  {
    cursor.Some? ==>
      row.createdAt < cursor.value.createdAt
      || (row.createdAt == cursor.value.createdAt && row.pk < cursor.value.pk)
  }

  predicate Descending(rows: seq<Row>)
  {
    forall i, j :: 0 <= i < j < |rows| ==> Above(rows[i], rows[j])
  }

  predicate Distinct(rows: seq<Row>)
  {
    forall i, j :: 0 <= i < j < |rows| ==> rows[i] != rows[j]
  }

  function Insert(row: Row, rows: seq<Row>): (r: seq<Row>)
    ensures multiset(r) == multiset(rows) + multiset{row}
  {
    if rows == [] || Above(row, rows[0]) then
      [row] + rows
    else
      assert rows == [rows[0]] + rows[1..];
      [rows[0]] + Insert(row, rows[1..])
  }

  /** `order_by("-created_at", "-pk")`. */
  function OrderBy(table: seq<Row>): (r: seq<Row>)
    ensures multiset(r) == multiset(table)
  {
    if table == [] then []
    else
      assert table == table[..|table| - 1] + [table[|table| - 1]];
      Insert(table[|table| - 1], OrderBy(table[..|table| - 1]))
  }

  function Filter(rows: seq<Row>, cursor: Option<Row>): (r: seq<Row>)
    ensures forall x :: x in r <==> x in rows && Past(cursor, x)
  {
    if rows == [] then []
    else (if Past(cursor, rows[0]) then [rows[0]] else []) + Filter(rows[1..], cursor)
  }

  function ClampPageSize(limit: int): (n: int)
    ensures 1 <= n <= MAX_PAGE_SIZE
    ensures 1 <= limit <= MAX_PAGE_SIZE ==> n == limit
    ensures limit < 1 ==> n == 1
    ensures limit > MAX_PAGE_SIZE ==> n == MAX_PAGE_SIZE
  {
    var m := if limit < MAX_PAGE_SIZE then limit else MAX_PAGE_SIZE;
    if 1 > m then 1 else m
  }

  function Min(a: nat, b: nat): nat
  {
    if a < b then a else b
  }

  /** `qs[:n]`. */
  function PageAfter(table: seq<Row>, cursor: Option<Row>, limit: int): seq<Row>
  {
    var rows := Filter(OrderBy(table), cursor);
    rows[..Min(ClampPageSize(limit), |rows|)]
  }

  // ---------------------------------------------------------------- ordering facts

  lemma {:induction false} InsertKeepsOrder(row: Row, rows: seq<Row>)
    requires Descending(rows) && row !in rows
    ensures Descending(Insert(row, rows))
  {
    if rows != [] && !Above(row, rows[0]) {
      InsertKeepsOrder(row, rows[1..]);
      var rest := Insert(row, rows[1..]);
      forall i | 0 <= i < |rest| ensures Above(rows[0], rest[i]) {
        assert rest[i] in multiset(rest);
        assert rest[i] in rows[1..] || rest[i] == row;
      }
    }
  }

  lemma {:induction false} OrderByDescends(table: seq<Row>)
    requires Distinct(table)
    ensures Descending(OrderBy(table)) && multiset(OrderBy(table)) == multiset(table)
  {
    if table != [] {
      var n := |table| - 1;
      OrderByDescends(table[..n]);
      assert table[n] !in table[..n];
      assert table[n] !in multiset(OrderBy(table[..n]));
      InsertKeepsOrder(table[n], OrderBy(table[..n]));
    }
  }

  lemma {:induction false} FilterDescends(rows: seq<Row>, cursor: Option<Row>)
    requires Descending(rows)
    ensures Descending(Filter(rows, cursor))
  {
    if rows != [] {
      FilterDescends(rows[1..], cursor);
      var rest := Filter(rows[1..], cursor);
      forall i | 0 <= i < |rest| ensures Above(rows[0], rest[i]) {
        assert rest[i] in rest;
        var k :| 0 <= k < |rows| - 1 && rows[1..][k] == rest[i];
        assert rows[k + 1] == rest[i];
      }
    }
  }

  /** A descending sequence is determined by its elements. */
  lemma {:induction false} DescendingIsUnique(a: seq<Row>, b: seq<Row>)
    requires Descending(a) && Descending(b)
    requires forall x :: x in a <==> x in b
    ensures a == b
  {
    if a + b != [] {
      var x := if a == [] then b[0] else a[0];
      assert x in a && x in b;
      assert a[0] in b;
      assert b[0] in a;
      assert a[0] == b[0];
      forall x ensures x in a[1..] <==> x in b[1..] {
        assert x in a[1..] <==> x in a && x != a[0];
        assert x in b[1..] <==> x in b && x != b[0];
      }
      DescendingIsUnique(a[1..], b[1..]);
      assert a == [a[0]] + a[1..] && b == [b[0]] + b[1..];
    }
  }

  /** What is still to come after a cursor. */
  function Rest(table: seq<Row>, cursor: Option<Row>): seq<Row>
  {
    Filter(OrderBy(table), cursor)
  }

  lemma RestProperties(table: seq<Row>, cursor: Option<Row>)
    requires Distinct(table)
    ensures Descending(Rest(table, cursor))
    ensures forall x :: x in Rest(table, cursor) <==> x in table && Past(cursor, x)
  {
    OrderByDescends(table);
    FilterDescends(OrderBy(table), cursor);
    forall x ensures x in OrderBy(table) <==> x in table {
      assert x in multiset(OrderBy(table)) <==> x in multiset(table);
    }
  }

  lemma RestIsDetermined(table: seq<Row>, cursor: Option<Row>, rest: seq<Row>)
    requires Distinct(table) && Descending(rest)
    requires forall x :: x in rest <==> x in table && Past(cursor, x)
    ensures Rest(table, cursor) == rest
  {
    RestProperties(table, cursor);
    DescendingIsUnique(Rest(table, cursor), rest);
  }

  // ---------------------------------------------------------------- one page

  /** A page holds no more rows than asked for, and at most 200; if it holds fewer there are no more. */
  lemma PageIsLimited(table: seq<Row>, cursor: Option<Row>, limit: int)
    ensures var page, rest := PageAfter(table, cursor, limit), Rest(table, cursor);
            && 1 <= ClampPageSize(limit) <= 200
            && |page| <= ClampPageSize(limit) && |page| <= |rest| && page == rest[..|page|]
            && (|page| < ClampPageSize(limit) ==> page == rest)
  {
  }

  /** The row comes later in time, or at the same time with the larger key. */
  predicate Newer(a: Row, b: Row)
  {
    a.createdAt > b.createdAt || (a.createdAt == b.createdAt && b.pk < a.pk)
  }

  /** What a page is, told from the columns: newest first, of the table and older than the cursor, as many
      as asked for between 1 and 200 or all there are, and no row that is left out is newer than one of
      the page. */
  lemma PageIsNewest(table: seq<Row>, cursor: Option<Row>, limit: int, x: Row)
    requires Distinct(table)
    ensures var page := PageAfter(table, cursor, limit);
            && (forall i, j :: 0 <= i < j < |page| ==> Newer(page[i], page[j]))
            && (x in page ==> x in table && (cursor.Some? ==> Newer(cursor.value, x)))
            && |page| <= (if limit < 1 then 1 else if limit > 200 then 200 else limit)
            && (x in table && (cursor.Some? ==> Newer(cursor.value, x)) && x !in page ==>
                  && |page| == (if limit < 1 then 1 else if limit > 200 then 200 else limit)
                  && forall i :: 0 <= i < |page| ==> Newer(page[i], x))
  {
    var page, rest := PageAfter(table, cursor, limit), Rest(table, cursor);
    RestProperties(table, cursor);
    PageIsLimited(table, cursor, limit);
    if x in page { assert x in rest; }
    if x in rest && x !in page {
      var k :| 0 <= k < |rest| && rest[k] == x;
      assert forall i :: 0 <= i < |page| ==> page[i] == rest[i];
    }
  }

  // ---------------------------------------------------------------- following cursors

  /** One page fetch, and the rows other users insert before the next one. */
  datatype Fetch = Fetch(limit: int, inserted: seq<Row>)

  function NextCursor(cursor: Option<Row>, page: seq<Row>): Option<Row>
  {
    if page == [] then cursor else Some(page[|page| - 1])
  }

  /** All rows a client sees who follows the cursors through `fetches`. */
  function Follow(table: seq<Row>, cursor: Option<Row>, fetches: seq<Fetch>): seq<Row>
    decreases |fetches|
  {
    if fetches == [] then []
    else
      var page := PageAfter(table, cursor, fetches[0].limit);
      page + Follow(table + fetches[0].inserted, NextCursor(cursor, page), fetches[1..])
  }

  /** New rows are new, and land above the cursor the client holds at that time. */
  predicate InsertsAbove(table: seq<Row>, cursor: Option<Row>, fetches: seq<Fetch>)
    decreases |fetches|
  {
    if fetches == [] then true
    else
      var next := NextCursor(cursor, PageAfter(table, cursor, fetches[0].limit));
      && Distinct(table + fetches[0].inserted)
      && (forall x :: x in fetches[0].inserted ==> !Past(next, x))
      && InsertsAbove(table + fetches[0].inserted, next, fetches[1..])
  }

  function Capacity(fetches: seq<Fetch>): (n: nat)
    ensures n >= |fetches|
  {
    if fetches == [] then 0 else ClampPageSize(fetches[0].limit) + Capacity(fetches[1..])
  }

  /** After a page of `n` rows, exactly the rows behind it are past the new cursor. */
  lemma PastNext(rest: seq<Row>, n: nat, cursor: Option<Row>, x: Row)
    requires Descending(rest) && n <= |rest| && (n > 0 || rest == [])
    requires forall y :: y in rest ==> Past(cursor, y)
    requires Past(cursor, x) ==> x in rest
    ensures x in rest[n..] <==> Past(NextCursor(cursor, rest[..n]), x)
  {
    if n > 0 {
      var last := rest[n - 1];
      assert last in rest;
      if x in rest[n..] {
        var i :| n <= i < |rest| && rest[i] == x;
        assert Above(last, x);
      }
      if Past(Some(last), x) {
        var i :| 0 <= i < |rest| && rest[i] == x;
        assert i >= n;
        assert rest[n..][i - n] == x;
      }
    }
  }

  /** What is still to come after a page is what was to come, less the page. */
  lemma RestAfterPage(table: seq<Row>, cursor: Option<Row>, fetch: Fetch)
    requires Distinct(table) && Distinct(table + fetch.inserted)
    requires forall x :: x in fetch.inserted ==> !Past(NextCursor(cursor, PageAfter(table, cursor, fetch.limit)), x)
    ensures var page := PageAfter(table, cursor, fetch.limit);
            Rest(table + fetch.inserted, NextCursor(cursor, page)) == Rest(table, cursor)[|page|..]
  {
    var rest := Rest(table, cursor);
    var page := PageAfter(table, cursor, fetch.limit);
    RestProperties(table, cursor);
    assert page == rest[..|page|];
    forall x ensures x in rest[|page|..] <==> x in table + fetch.inserted && Past(NextCursor(cursor, page), x) {
      if x in table { PastNext(rest, |page|, cursor, x); }
      assert x in rest[|page|..] ==> x in rest;
    }
    RestIsDetermined(table + fetch.inserted, NextCursor(cursor, page), rest[|page|..]);
  }

  /** The rows seen are a prefix of what was to come: as many as the limits together allow, or all. */
  lemma {:induction false} FollowIsPrefix(table: seq<Row>, cursor: Option<Row>, fetches: seq<Fetch>)
    requires Distinct(table) && InsertsAbove(table, cursor, fetches)
    ensures var seen, rest := Follow(table, cursor, fetches), Rest(table, cursor);
            && |seen| == (if Capacity(fetches) < |rest| then Capacity(fetches) else |rest|)
            && seen == rest[..|seen|]
    decreases |fetches|
  {
    hide ClampPageSize, OrderBy, Filter, Distinct, Past, NextCursor, PageAfter;
    if fetches != [] {
      var page, rest := PageAfter(table, cursor, fetches[0].limit), Rest(table, cursor);
      PageIsLimited(table, cursor, fetches[0].limit);
      RestAfterPage(table, cursor, fetches[0]);
      FollowIsPrefix(table + fetches[0].inserted, NextCursor(cursor, page), fetches[1..]);
      PrefixSplits(rest, |page|, |Follow(table, cursor, fetches)|);
    }
  }

  lemma PrefixSplits(rest: seq<Row>, n: nat, m: nat)
    requires n <= m <= |rest|
    ensures rest[..n] + rest[n..][..m - n] == rest[..m]
  {
  }

  /** Following cursors from the first page, whatever the limits and whatever is inserted above the
      cursor meanwhile, yields every row of the table as it was at the first fetch, exactly once, in
      descending order: after at most one fetch per row nothing is missing, and at no time has
      anything but a prefix been seen. */
  lemma PaginationEnumerates(table: seq<Row>, fetches: seq<Fetch>)
    requires Distinct(table) && InsertsAbove(table, None, fetches)
    ensures var seen, all := Follow(table, None, fetches), OrderBy(table);
            && (forall i, j :: 0 <= i < j < |all| ==> Newer(all[i], all[j])) && multiset(all) == multiset(table)
            && |all| == |table| && |seen| == (if Capacity(fetches) < |table| then Capacity(fetches) else |table|)
            && seen == all[..|seen|]
            && (|fetches| >= |table| ==> seen == all)
  {
    OrderByDescends(table);
    NoCursorFiltersNothing(OrderBy(table));
    FollowIsPrefix(table, None, fetches);
    assert |OrderBy(table)| == |multiset(OrderBy(table))| == |table|;
  }

  lemma {:induction false} NoCursorFiltersNothing(rows: seq<Row>)
    ensures Filter(rows, None) == rows
  {
    if rows != [] {
      NoCursorFiltersNothing(rows[1..]);
    }
  }

  lemma {:induction false} NothingInserted(table: seq<Row>, cursor: Option<Row>, quiet: seq<Fetch>)
    requires Distinct(table) && forall i :: 0 <= i < |quiet| ==> quiet[i].inserted == []
    ensures InsertsAbove(table, cursor, quiet)
    decreases |quiet|
  {
    if quiet != [] {
      var next := NextCursor(cursor, PageAfter(table, cursor, quiet[0].limit));
      assert table + quiet[0].inserted == table;
      NothingInserted(table, next, quiet[1..]);
    }
  }

  /** The insertions are invisible: the same fetches without them see the same rows. */
  lemma InsertionsAreInvisible(table: seq<Row>, cursor: Option<Row>, fetches: seq<Fetch>, quiet: seq<Fetch>)
    requires Distinct(table) && InsertsAbove(table, cursor, fetches)
    requires |quiet| == |fetches| && forall i :: 0 <= i < |quiet| ==> quiet[i] == Fetch(fetches[i].limit, [])
    ensures Follow(table, cursor, fetches) == Follow(table, cursor, quiet)
  {
    NothingInserted(table, cursor, quiet);
    FollowIsPrefix(table, cursor, fetches);
    FollowIsPrefix(table, cursor, quiet);
    SameCapacity(fetches, quiet);
  }

  lemma {:induction false} SameCapacity(a: seq<Fetch>, b: seq<Fetch>)
    requires |a| == |b| && forall i :: 0 <= i < |a| ==> a[i].limit == b[i].limit
    ensures Capacity(a) == Capacity(b)
  {
    if a != [] { SameCapacity(a[1..], b[1..]); }
  }
}
