/** Keyset pagination of a contract's transaction history, newest first. */
module KeysetPaging {
  import opened Types

  /** A transactions row; `recipients` are the collaborators of its payouts. Timestamps are compared as
      stored, so any totally ordered type would do. */
  datatype Row = Row(id: nat, contractId: nat, kind: nat, timestamp: int, recipients: set<Address>)

  datatype Cursor = Cursor(timestamp: int, id: nat)

  /** An absent or empty filter is None; a LIKE pattern is given by the addresses it matches. */
  datatype Filters = Filters(kind: Option<nat>, recipient: Option<set<Address>>, startDate: Option<int>, endDate: Option<int>)

  /** One conjunct of the WHERE clause with its parameters. */
  datatype Condition =
    | ContractIs(contractId: nat)
    | KindIs(kind: nat)
    | PaidTo(addresses: set<Address>)
    | NotBefore(timestamp: int)
    | NotAfter(timestamp: int)
    | PastCursor(cursor: Cursor)

  datatype Page = Page(data: seq<Row>, nextCursor: Option<Cursor>)

  predicate Past(r: Row, c: Cursor) {
    r.timestamp < c.timestamp || (r.timestamp == c.timestamp && r.id < c.id)
  }

  predicate Meets(r: Row, c: Condition) {
    match c
    case ContractIs(contractId) => r.contractId == contractId
    case KindIs(kind) => r.kind == kind
    case PaidTo(addresses) => r.recipients * addresses != {}
    case NotBefore(timestamp) => r.timestamp >= timestamp
    case NotAfter(timestamp) => r.timestamp <= timestamp
    case PastCursor(cursor) => Past(r, cursor)
  }

  predicate Holds(r: Row, where: seq<Condition>) {
    forall i :: 0 <= i < |where| ==> Meets(r, where[i])
  }

  /** ORDER BY timestamp DESC, id DESC. */
  predicate Precedes(a: Row, b: Row) {
    a.timestamp > b.timestamp || (a.timestamp == b.timestamp && a.id > b.id)
  }

  function Insert(r: Row, rows: seq<Row>): seq<Row> {
    if rows == [] || Precedes(r, rows[0]) then [r] + rows else [rows[0]] + Insert(r, rows[1..])
  }

  /** SELECT … WHERE … ORDER BY, without the LIMIT. */
  function Select(table: seq<Row>, where: seq<Condition>): seq<Row> {
    if table == [] then []
    else
      var rest := Select(table[1..], where);
      if Holds(table[0], where) then Insert(table[0], rest) else rest
  }

  /** The contract's rows, narrowed by each filter that is present. */
  function Where(contractId: nat, filters: Filters): seq<Condition> {
    var byKind := [ContractIs(contractId)] + if filters.kind.Some? then [KindIs(filters.kind.value)] else [];
    var byRecipient := byKind + if filters.recipient.Some? then [PaidTo(filters.recipient.value)] else [];
    var byStart := byRecipient + if filters.startDate.Some? then [NotBefore(filters.startDate.value)] else [];
    byStart + if filters.endDate.Some? then [NotAfter(filters.endDate.value)] else []
  }

  function WithCursor(where: seq<Condition>, cursor: Option<Cursor>): seq<Condition> {
    if cursor.Some? then where + [PastCursor(cursor.value)] else where
  }

  function KeyOf(r: Row): Cursor {
    Cursor(r.timestamp, r.id)
  }

  function PageOf(table: seq<Row>, where: seq<Condition>, limit: nat, cursor: Option<Cursor>): Page {
    var all := Select(table, WithCursor(where, cursor));
    if |all| <= limit then Page(all, None)
    else Page(all[..limit], if limit > 0 then Some(KeyOf(all[limit - 1])) else None)
  }

  method GetTransactionHistoryCursor(
    table: seq<Row>, contractId: nat, limit: nat, cursor: Option<Cursor>, filters: Filters)
    returns (page: Page)
    ensures page == PageOf(table, Where(contractId, filters), limit, cursor)
    ensures UniqueIds(table) ==> Descending(page.data) && |page.data| <= limit
    ensures UniqueIds(table) ==> forall r :: r in page.data ==>
      r in table && Holds(r, Where(contractId, filters)) && (cursor.Some? ==> Past(r, cursor.value))
    ensures UniqueIds(table) ==> forall r :: r in page.data ==> Asked(r, contractId, filters)
    ensures UniqueIds(table) ==> forall i, j :: 0 <= i < j < |page.data| ==> Newer(page.data[i], page.data[j])
    ensures UniqueIds(table) && cursor.Some? ==> forall r :: r in page.data ==>
      r.timestamp < cursor.value.timestamp || (r.timestamp == cursor.value.timestamp && r.id < cursor.value.id)
  {
    var conditions := BuildConditions(contractId, cursor, filters);
    hide Select, Holds, Where, Descending;
    var all := Select(table, conditions);
    var data := if |all| <= limit + 1 then all else all[..limit + 1];
    var hasMore := |data| > limit;
    var rows := if hasMore then data[..limit] else data;
    var nextCursor := if hasMore && |rows| > 0 then Some(KeyOf(rows[|rows| - 1])) else None;
    page := Page(rows, nextCursor);
    assert page == PageOf(table, Where(contractId, filters), limit, cursor);
    if UniqueIds(table) {
      PageSpec(table, Where(contractId, filters), limit, cursor);
      forall r { WhereIsAsked(r, contractId, filters); }
      DescendingIsNewer(page.data);
    }
  }

  /** What the caller asked for: this contract, and each filter that is present. */
  ghost predicate Asked(r: Row, contractId: nat, filters: Filters) {
    && r.contractId == contractId
    && (filters.kind.Some? ==> r.kind == filters.kind.value)
    && (filters.recipient.Some? ==> exists a :: a in r.recipients && a in filters.recipient.value)
    && (filters.startDate.Some? ==> filters.startDate.value <= r.timestamp)
    && (filters.endDate.Some? ==> r.timestamp <= filters.endDate.value)
  }

  /** Later, or at the same time under a greater id. */
  ghost predicate Newer(a: Row, b: Row) {
    a.timestamp > b.timestamp || (a.timestamp == b.timestamp && a.id > b.id)
  }

  /** The conditions without a cursor hold exactly of the rows asked for. */
  lemma WhereIsAsked(r: Row, contractId: nat, filters: Filters)
    ensures Holds(r, Where(contractId, filters)) <==> Asked(r, contractId, filters)
  {
    var w := Where(contractId, filters);
    var n1 := 1 + if filters.kind.Some? then 1 else 0;
    var n2 := n1 + if filters.recipient.Some? then 1 else 0;
    var n3 := n2 + if filters.startDate.Some? then 1 else 0;
    assert w[0] == ContractIs(contractId);
    assert filters.kind.Some? ==> w[1] == KindIs(filters.kind.value);
    assert filters.recipient.Some? ==> w[n1] == PaidTo(filters.recipient.value);
    assert filters.startDate.Some? ==> w[n2] == NotBefore(filters.startDate.value);
    assert filters.endDate.Some? ==> w[n3] == NotAfter(filters.endDate.value);
    if filters.recipient.Some? { CommonMember(r.recipients, filters.recipient.value); }
  }

  lemma CommonMember(a: set<Address>, b: set<Address>)
    ensures a * b != {} <==> exists x :: x in a && x in b
  {
    if a * b != {} {
      var x :| x in a * b;
      assert x in a && x in b;
    }
    forall x | x in a && x in b ensures a * b != {} { assert x in a * b; }
  }

  lemma DescendingIsNewer(rows: seq<Row>)
    requires Descending(rows)
    ensures forall i, j :: 0 <= i < j < |rows| ==> Newer(rows[i], rows[j])
  {
  }

  method BuildConditions(contractId: nat, cursor: Option<Cursor>, filters: Filters) returns (conditions: seq<Condition>)
    ensures conditions == WithCursor(Where(contractId, filters), cursor)
  {
    conditions := [ContractIs(contractId)];
    ghost var c0 := conditions;
    if filters.kind.Some? { conditions := conditions + [KindIs(filters.kind.value)]; }
    ghost var c1 := conditions;
    assert c1 == c0 + if filters.kind.Some? then [KindIs(filters.kind.value)] else [];
    if filters.recipient.Some? { conditions := conditions + [PaidTo(filters.recipient.value)]; }
    ghost var c2 := conditions;
    assert c2 == c1 + if filters.recipient.Some? then [PaidTo(filters.recipient.value)] else [];
    if filters.startDate.Some? { conditions := conditions + [NotBefore(filters.startDate.value)]; }
    ghost var c3 := conditions;
    assert c3 == c2 + if filters.startDate.Some? then [NotBefore(filters.startDate.value)] else [];
    if filters.endDate.Some? { conditions := conditions + [NotAfter(filters.endDate.value)]; }
    assert conditions == c3 + if filters.endDate.Some? then [NotAfter(filters.endDate.value)] else [];
    if cursor.Some? { conditions := conditions + [PastCursor(cursor.value)]; }
  }

  // ----- The query -----

  /** The table's primary key. */
  ghost predicate UniqueIds(table: seq<Row>) {
    forall i, j :: 0 <= i < j < |table| ==> table[i].id != table[j].id
  }

  ghost predicate Descending(rows: seq<Row>) {
    forall i, j :: 0 <= i < j < |rows| ==> Precedes(rows[i], rows[j])
  }

  lemma {:induction false} InsertSpec(r: Row, rows: seq<Row>)
    requires Descending(rows) && forall x :: x in rows ==> x.id != r.id
    ensures Descending(Insert(r, rows))
    ensures forall x :: x in Insert(r, rows) <==> x == r || x in rows
  {
    if rows != [] && !Precedes(r, rows[0]) {
      InsertSpec(r, rows[1..]);
      assert rows == [rows[0]] + rows[1..];
      assert forall x :: x in Insert(r, rows[1..]) ==> Precedes(rows[0], x);
    }
  }

  lemma {:induction false} OrderedSpec(table: seq<Row>, where: seq<Condition>)
    requires UniqueIds(table)
    ensures Descending(Select(table, where))
    ensures forall r :: r in Select(table, where) <==> r in table && Holds(r, where)
  {
    if table != [] {
      OrderedSpec(table[1..], where);
      assert table == [table[0]] + table[1..];
      if Holds(table[0], where) { InsertSpec(table[0], Select(table[1..], where)); }
    }
  }

  lemma HoldsWithCursor(r: Row, where: seq<Condition>, cursor: Option<Cursor>)
    ensures Holds(r, WithCursor(where, cursor)) <==> Holds(r, where) && (cursor.Some? ==> Past(r, cursor.value))
  {
    if cursor.Some? {
      var w := WithCursor(where, cursor);
      assert w[|where|] == PastCursor(cursor.value);
      assert forall i :: 0 <= i < |where| ==> w[i] == where[i];
    }
  }

  /** The rows a page can draw on: exactly the matching ones past the cursor, in strict order. */
  lemma SelectSpec(table: seq<Row>, where: seq<Condition>, cursor: Option<Cursor>)
    requires UniqueIds(table)
    ensures Descending(Select(table, WithCursor(where, cursor)))
    ensures forall r :: r in Select(table, WithCursor(where, cursor)) <==>
      r in table && Holds(r, where) && (cursor.Some? ==> Past(r, cursor.value))
  {
    OrderedSpec(table, WithCursor(where, cursor));
    forall r { HoldsWithCursor(r, where, cursor); }
  }

  lemma PageSpec(table: seq<Row>, where: seq<Condition>, limit: nat, cursor: Option<Cursor>)
    requires UniqueIds(table)
    ensures var data := PageOf(table, where, limit, cursor).data;
      && Descending(data) && |data| <= limit
      && forall r :: r in data ==> r in table && Holds(r, where) && (cursor.Some? ==> Past(r, cursor.value))
  {
    hide Select, Holds;
    SelectSpec(table, where, cursor);
  }

  /** A strict order leaves one listing of a set of rows. */
  lemma {:induction false} OneListing(a: seq<Row>, b: seq<Row>)
    requires Descending(a) && Descending(b) && forall r :: r in a <==> r in b
    ensures a == b
  {
    if a == [] {
      assert forall i :: 0 <= i < |b| ==> b[i] in a;
    } else {
      assert a[0] in b;
      assert b[0] in a;
      assert a[0] == b[0];
      TailMembers(a, b);
      OneListing(a[1..], b[1..]);
    }
  }

  lemma TailMembers(a: seq<Row>, b: seq<Row>)
    requires Descending(a) && Descending(b) && a != [] && b != [] && a[0] == b[0] && forall r :: r in a <==> r in b
    ensures forall r :: r in a[1..] <==> r in b[1..]
  {
    assert a == [a[0]] + a[1..] && b == [b[0]] + b[1..];
    assert forall i :: 1 <= i < |a| ==> a[i] != a[0];
    assert forall i :: 1 <= i < |b| ==> b[i] != b[0];
    assert forall r :: r in a[1..] <==> r in a && r != a[0];
    assert forall r :: r in b[1..] <==> r in b && r != b[0];
  }

  // ----- A table at rest -----

  /** The cursor handed out with a full page continues the same query right behind it. */
  lemma CursorContinues(table: seq<Row>, where: seq<Condition>, limit: nat, cursor: Option<Cursor>)
    requires UniqueIds(table) && limit >= 1 && PageOf(table, where, limit, cursor).nextCursor.Some?
    ensures var all := Select(table, WithCursor(where, cursor));
      && |all| > limit
      && Select(table, WithCursor(where, PageOf(table, where, limit, cursor).nextCursor)) == all[limit..]
  {
    var all := Select(table, WithCursor(where, cursor));
    var next := PageOf(table, where, limit, cursor).nextCursor;
    SelectSpec(table, where, cursor);
    SelectSpec(table, where, next);
    var rest := Select(table, WithCursor(where, next));
    assert all[limit - 1] in all;
    forall r ensures r in rest <==> r in all[limit..] {
      if r in all[limit..] {
        var i :| 0 <= i < |all[limit..]| && all[limit..][i] == r;
        assert all[limit + i] == r;
      }
      if r in rest {
        assert r in all;
        var i :| 0 <= i < |all| && all[i] == r;
        assert i >= limit;
        assert all[limit..][i - limit] == r;
      }
    }
    OneListing(rest, all[limit..]);
  }

  /** Follow nextCursor until it is null, and concatenate the pages. */
  function Walk(table: seq<Row>, where: seq<Condition>, limit: nat, cursor: Option<Cursor>): seq<Row>
    requires UniqueIds(table)
    decreases |Select(table, WithCursor(where, cursor))|
  {
    var page := PageOf(table, where, limit, cursor);
    if page.nextCursor.None? then page.data
    else
      CursorContinues(table, where, limit, cursor);
      page.data + Walk(table, where, limit, page.nextCursor)
  }

  lemma {:induction false} WalkFromCursor(table: seq<Row>, where: seq<Condition>, limit: nat, cursor: Option<Cursor>)
    requires UniqueIds(table) && limit >= 1
    ensures Walk(table, where, limit, cursor) == Select(table, WithCursor(where, cursor))
    decreases |Select(table, WithCursor(where, cursor))|
  {
    var page := PageOf(table, where, limit, cursor);
    if page.nextCursor.Some? {
      CursorContinues(table, where, limit, cursor);
      WalkFromCursor(table, where, limit, page.nextCursor);
    }
  }

  /** On a table at rest the pages make up the whole query, each row once and newest first, exactly
      when the limit is at least 1 or there is nothing to list. */
  lemma WalkIsWholeQueryIff(table: seq<Row>, where: seq<Condition>, limit: nat)
    requires UniqueIds(table)
    ensures Descending(Select(table, where))
    ensures forall r :: r in Select(table, where) <==> r in table && Holds(r, where)
    ensures Walk(table, where, limit, None) == Select(table, where) <==> limit >= 1 || Select(table, where) == []
  {
    OrderedSpec(table, where);
    if limit >= 1 { WalkFromCursor(table, where, limit, None); }
  }

  // ----- A table that changes between pages -----

  /** One snapshot of the table per page; each page follows the cursor of the one before. */
  ghost predicate IsPaging(tables: seq<seq<Row>>, pages: seq<Page>, where: seq<Condition>, limit: nat) {
    && |tables| == |pages| >= 1 && limit >= 1
    && (forall k :: 0 <= k < |tables| ==> UniqueIds(tables[k]))
    && forall k :: 0 <= k < |pages| ==>
      (k > 0 ==> CursorOf(pages, k).Some?) && pages[k] == PageOf(tables[k], where, limit, CursorOf(pages, k))
  }

  function Listed(pages: seq<Page>): seq<Row> {
    if pages == [] then [] else Listed(pages[..|pages| - 1]) + pages[|pages| - 1].data
  }

  function CursorOf(pages: seq<Page>, k: nat): Option<Cursor>
    requires k < |pages|
  {
    if k == 0 then None else pages[k - 1].nextCursor
  }

  /** A page lies strictly past the cursor that opened it, and not past the one it hands out. */
  lemma PageBounds(table: seq<Row>, where: seq<Condition>, limit: nat, cursor: Option<Cursor>)
    requires UniqueIds(table) && limit >= 1
    ensures var page := PageOf(table, where, limit, cursor);
      && Descending(page.data)
      && (forall r :: r in page.data ==> cursor.Some? ==> Past(r, cursor.value))
      && (page.nextCursor.Some? ==> forall r :: r in page.data ==> !Past(r, page.nextCursor.value))
      && (page.nextCursor.Some? && cursor.Some? ==> forall r :: Past(r, page.nextCursor.value) ==> Past(r, cursor.value))
  {
    SelectSpec(table, where, cursor);
    var page := PageOf(table, where, limit, cursor);
    if page.nextCursor.Some? {
      var last := page.data[limit - 1];
      assert page.nextCursor.value == KeyOf(last) && last in page.data;
      assert last in Select(table, WithCursor(where, cursor));
    }
  }

  /** Whatever is inserted, deleted or updated between pages, the listing stays strictly descending, so
      no (timestamp, id) appears twice. */
  lemma {:induction false} NoDuplicates(tables: seq<seq<Row>>, pages: seq<Page>, where: seq<Condition>, limit: nat, k: nat)
    requires IsPaging(tables, pages, where, limit) && k < |pages|
    ensures Descending(Listed(pages[..k + 1]))
    ensures pages[k].nextCursor.Some? ==> forall r :: r in Listed(pages[..k + 1]) ==> !Past(r, pages[k].nextCursor.value)
  {
    hide PageOf, Descending, Past;
    var cursor := CursorOf(pages, k);
    PageBounds(tables[k], where, limit, cursor);
    ListedSnoc(pages, k);
    if k > 0 {
      NoDuplicates(tables, pages, where, limit, k - 1);
      hide IsPaging;
      JoinDescending(Listed(pages[..k]), pages[k].data, cursor.value);
    }
  }

  lemma ListedSnoc(pages: seq<Page>, k: nat)
    requires k < |pages|
    ensures Listed(pages[..k + 1]) == Listed(pages[..k]) + pages[k].data
    ensures k == 0 ==> Listed(pages[..k + 1]) == pages[k].data
  {
    assert pages[..k + 1][..k] == pages[..k];
  }

  lemma JoinDescending(a: seq<Row>, b: seq<Row>, c: Cursor)
    requires Descending(a) && Descending(b)
    requires (forall r :: r in a ==> !Past(r, c)) && (forall r :: r in b ==> Past(r, c))
    ensures Descending(a + b)
  {
    forall i, j | 0 <= i < j < |a + b| ensures Precedes((a + b)[i], (a + b)[j]) {
      if i < |a| { assert a[i] in a; }
      if j >= |a| { assert b[j - |a|] in b; }
    }
  }

  /** A matching row that is there in every snapshot has been listed once the cursor has passed it. */
  lemma {:induction false} PassedRowsAreListed(
    tables: seq<seq<Row>>, pages: seq<Page>, where: seq<Condition>, limit: nat, k: nat, r: Row)
    requires IsPaging(tables, pages, where, limit) && k < |pages|
    requires (forall i :: 0 <= i <= k ==> r in tables[i]) && Holds(r, where)
    ensures r in Listed(pages[..k + 1]) || (pages[k].nextCursor.Some? && Past(r, pages[k].nextCursor.value))
  {
    assert pages[..k + 1][..k] == pages[..k];
    var cursor := CursorOf(pages, k);
    if k > 0 { PassedRowsAreListed(tables, pages, where, limit, k - 1, r); }
    if cursor.None? || Past(r, cursor.value) {
      ListedOrAhead(tables[k], where, limit, cursor, r);
    }
    hide PageOf, Holds;
    assert Listed(pages[..k + 1]) == Listed(pages[..k]) + pages[k].data;
  }

  lemma ListedOrAhead(table: seq<Row>, where: seq<Condition>, limit: nat, cursor: Option<Cursor>, r: Row)
    requires UniqueIds(table) && limit >= 1 && r in table && Holds(r, where) && (cursor.Some? ==> Past(r, cursor.value))
    ensures var page := PageOf(table, where, limit, cursor);
      r in page.data || (page.nextCursor.Some? && Past(r, page.nextCursor.value))
  {
    hide Holds, Select;
    SelectSpec(table, where, cursor);
    var all := Select(table, WithCursor(where, cursor));
    var i :| 0 <= i < |all| && all[i] == r;
    var page := PageOf(table, where, limit, cursor);
    if i < |page.data| { assert r == page.data[i]; }
  }

  /** So when paging ends, every matching row that was there throughout has been listed. */
  lemma StableRowsAreListed(tables: seq<seq<Row>>, pages: seq<Page>, where: seq<Condition>, limit: nat, r: Row)
    requires IsPaging(tables, pages, where, limit) && pages[|pages| - 1].nextCursor.None?
    requires Holds(r, where) && forall i :: 0 <= i < |tables| ==> r in tables[i]
    ensures r in Listed(pages)
  {
    hide PageOf, Holds, Listed, UniqueIds, CursorOf, Past;
    assert pages[..|pages|] == pages;
    PassedRowsAreListed(tables, pages, where, limit, |pages| - 1, r);
  }

  lemma PageMatches(tables: seq<seq<Row>>, pages: seq<Page>, where: seq<Condition>, limit: nat, k: nat)
    requires IsPaging(tables, pages, where, limit) && k < |pages|
    ensures forall r :: r in pages[k].data ==> r in tables[k] && Holds(r, where)
  {
    hide PageOf, Holds, Past, Descending;
    PageSpec(tables[k], where, limit, CursorOf(pages, k));
  }

  /** Some of the first k snapshots has the row. */
  ghost predicate Shown(tables: seq<seq<Row>>, k: nat, r: Row) {
    exists i :: 0 <= i < k && i < |tables| && r in tables[i]
  }

  /** Only matching rows are listed. */
  lemma {:induction false} ListedRowsMatch(tables: seq<seq<Row>>, pages: seq<Page>, where: seq<Condition>, limit: nat, k: nat)
    requires IsPaging(tables, pages, where, limit) && k <= |pages|
    ensures forall r :: r in Listed(pages[..k]) ==> Holds(r, where) && Shown(tables, k, r)
  {
    hide Holds, Listed, Shown, PageOf, UniqueIds, CursorOf;
    if k > 0 {
      PageMatches(tables, pages, where, limit, k - 1);
      ListedRowsMatch(tables, pages, where, limit, k - 1);
      ListedSnoc(pages, k - 1);
      ShownMore(tables, pages, k);
      var before, data, all := Listed(pages[..k - 1]), pages[k - 1].data, Listed(pages[..k]);
      forall r | r in all ensures Holds(r, where) && Shown(tables, k, r) {
        assert r in before || r in data;
      }
    } else {
      NothingListed(pages);
    }
  }

  lemma NothingListed(pages: seq<Page>)
    ensures Listed(pages[..0]) == []
  {
  }

  lemma ShownMore(tables: seq<seq<Row>>, pages: seq<Page>, k: nat)
    requires 0 < k <= |tables| == |pages|
    ensures forall r :: Shown(tables, k - 1, r) || r in tables[k - 1] ==> Shown(tables, k, r)
  {
  }

  /** As rows keep their timestamps, no transaction is listed twice, not even with updated columns. */
  lemma EachTransactionOnce(
    tables: seq<seq<Row>>, pages: seq<Page>, where: seq<Condition>, limit: nat, stamps: map<nat, int>, i: nat, j: nat)
    requires IsPaging(tables, pages, where, limit) && i < j < |Listed(pages)|
    requires forall k, r :: 0 <= k < |tables| && r in tables[k] ==> r.id in stamps && stamps[r.id] == r.timestamp
    ensures Listed(pages)[i].id != Listed(pages)[j].id
  {
    assert pages[..|pages|] == pages;
    NoDuplicates(tables, pages, where, limit, |pages| - 1);
    ListedRowsMatch(tables, pages, where, limit, |pages|);
    assert Listed(pages)[i] in Listed(pages) && Listed(pages)[j] in Listed(pages);
  }
}
