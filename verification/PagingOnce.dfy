/** When a client that follows the cursors receives each campaign exactly once, over a database that
    ranks ids in an order of its own: exactly when the two orders agree on the end of each page. */
module PagingOnce {
  import opened Wrappers
  import opened Timestamps
  import opened Cursor
  import opened Ordering
  import opened Pagination

  // ----- when each campaign comes once

  /** The page's last row by the database's order is the last by the service's too. */
  predicate EndAgrees(rows: seq<Row>, from: nat, limit: nat)
    requires 0 < limit && from + limit <= |rows|
  {
    forall k :: from <= k < from + limit ==> RowLe(rows[k], rows[from + limit - 1])
  }

  /** Every page but the last ends in the row that the service sorts last. */
  predicate PageEndsAgree(rows: seq<Row>, from: nat, limit: nat)
    requires 0 < limit
    decreases |rows| - from
  {
    from + limit >= |rows| || (EndAgrees(rows, from, limit) && PageEndsAgree(rows, from + limit, limit))
  }

  /** Rows differ in instant or id. */
  ghost predicate Distinguished(rows: seq<Row>) {
    forall i, j :: 0 <= i < j < |rows| ==> !Names(PositionOf(rows[i]), rows[j])
  }

  lemma ListedIsDistinguished(before: IdOrder, rows: seq<Row>)
    requires Asymmetric(before) && Listed(before, rows)
    ensures Distinguished(rows)
  {
    forall i, j | 0 <= i < j < |rows|
      ensures !Names(PositionOf(rows[i]), rows[j])
    {
      assert After(before, rows[j], PositionOf(rows[i]));
    }
  }

  lemma RowLeTotal(a: Row, b: Row)
    ensures RowLe(a, b) || RowLe(b, a)
    ensures RowLe(a, b) && RowLe(b, a) ==> Names(PositionOf(a), b)
  {
    StrLeTotal(a.id, b.id);
  }

  lemma RowLeTransitive(a: Row, b: Row, c: Row)
    requires RowLe(a, b) && RowLe(b, c)
    ensures RowLe(a, c)
  {
    if a.observedAt.instant == b.observedAt.instant == c.observedAt.instant {
      StrLeTransitive(a.id, b.id, c.id);
    }
  }

  /** Sorting puts a row last that no other exceeds. */
  lemma {:induction false} SortedEnd(rows: seq<Row>, r: Row)
    requires rows != [] && r in rows
    ensures RowLe(r, SortRows(rows)[|rows| - 1])
  {
    SortRowsSorts(rows);
    SortKeepsRows(rows, r);
    EndOfSorted(SortRows(rows), r);
  }

  lemma EndOfSorted(sorted: seq<Row>, r: Row)
    requires Sorted(sorted) && r in sorted
    ensures RowLe(r, sorted[|sorted| - 1])
  {
    RowLeTotal(r, r);
  }

  lemma {:induction false} SortRowsSorts(rows: seq<Row>)
    ensures Sorted(SortRows(rows))
  {
    if rows != [] {
      SortRowsSorts(rows[1..]);
      InsertKeepsSorted(rows[0], SortRows(rows[1..]));
    }
  }

  lemma {:induction false} InsertKeepsSorted(r: Row, rows: seq<Row>)
    requires Sorted(rows)
    ensures Sorted(InsertRow(r, rows))
  {
    if rows != [] {
      RowLeTotal(r, rows[0]);
      if RowLe(r, rows[0]) {
        forall j | 0 <= j < |rows|
          ensures RowLe(r, rows[j])
        {
          if j > 0 {
            RowLeTransitive(r, rows[0], rows[j]);
          }
        }
      } else {
        InsertKeepsSorted(r, rows[1..]);
        FirstStaysFirst(r, rows);
        SortedBehind(rows[0], InsertRow(r, rows[1..]));
      }
    }
  }

  ghost predicate Precedes(first: Row, rest: seq<Row>) {
    forall j :: 0 <= j < |rest| ==> RowLe(first, rest[j])
  }

  lemma SortedBehind(first: Row, rest: seq<Row>)
    requires Sorted(rest) && Precedes(first, rest)
    ensures Sorted([first] + rest)
  {
    var all := [first] + rest;
    assert forall j :: 1 <= j < |all| ==> all[j] == rest[j - 1];
  }

  lemma FirstStaysFirst(r: Row, rows: seq<Row>)
    requires Sorted(rows) && rows != [] && RowLe(rows[0], r)
    ensures Precedes(rows[0], InsertRow(r, rows[1..]))
  {
    var rest := InsertRow(r, rows[1..]);
    forall j | 0 <= j < |rest|
      ensures RowLe(rows[0], rest[j])
    {
      assert rest[j] in multiset(rest);
      assert rest[j] == r || rest[j] in multiset(rows[1..]);
    }
  }

  /** The row the service puts last is the page's own last one exactly when the orders agree on it. */
  lemma GreatestIsEnd(rows: seq<Row>, from: nat, limit: nat, at: nat)
    requires Distinguished(rows) && 0 < limit && from + limit <= |rows| && from <= at < from + limit
    requires forall k :: from <= k < from + limit ==> RowLe(rows[k], rows[at])
    ensures at == from + limit - 1 <==> EndAgrees(rows, from, limit)
  {
    if EndAgrees(rows, from, limit) {
      assert RowLe(rows[at], rows[from + limit - 1]) && RowLe(rows[from + limit - 1], rows[at]);
      RowLeTotal(rows[at], rows[from + limit - 1]);
    }
  }

  lemma EndExceeds(rows: seq<Row>, from: nat, limit: nat, items: seq<Row>, last: Row)
    requires 0 < limit && from + limit <= |rows| && items == rows[from..from + limit]
    requires last == SortRows(items)[limit - 1]
    ensures forall k :: from <= k < from + limit ==> RowLe(rows[k], last)
  {
    forall k | from <= k < from + limit
      ensures RowLe(rows[k], last)
    {
      ItemAt(rows, from, limit, items, k);
      SortedEnd(items, rows[k]);
    }
  }

  lemma ItemAt(rows: seq<Row>, from: nat, limit: nat, items: seq<Row>, k: nat)
    requires from + limit <= |rows| && items == rows[from..from + limit] && from <= k < from + limit
    ensures items != [] && rows[k] in items
  {
    assert items[k - from] == rows[k];
  }

  // One page, with the index its cursor names.

  ghost predicate TurnsAt(codec: Codec, rows: seq<Row>, limit: nat, from: nat, page: Page, next: nat)
    requires 0 < limit && from + limit <= |rows|
  {
    && LeadsTo(codec, page.nextCursor, rows, next)
    && from < next <= from + limit
    && (next == from + limit <==> EndAgrees(rows, from, limit))
  }

  ghost predicate CountedPage(codec: Codec, rows: seq<Row>, limit: nat, from: nat, page: Result<Page, ReadError>)
    requires from <= |rows| && 0 < limit
  {
    && page.Success?
    && multiset(page.value.items) == multiset(FirstOf(rows[from..], limit).items)
    && (if from + limit < |rows|
        then page.value.nextCursor.Some? && exists next: nat :: TurnsAt(codec, rows, limit, from, page.value, next)
        else page.value.nextCursor.None?)
  }

  lemma TurnOfPage(codec: Codec, rows: seq<Row>, from: nat, limit: nat, items: seq<Row>, page: Page, r: Row) returns (next: nat)
    requires Distinguished(rows) && AllWritten(codec, rows)
    requires from + limit < |rows| && limit > 0 && items == rows[from..from + limit]
    requires r == SortRows(items)[limit - 1] && page.nextCursor == codec.encode(PositionOf(r))
    ensures TurnsAt(codec, rows, limit, from, page, next)
  {
    var at := LastOfPage(rows, from, limit, items, r);
    EndExceeds(rows, from, limit, items, r);
    next := TurnAt(codec, rows, from, limit, page, at);
  }

  lemma TurnAt(codec: Codec, rows: seq<Row>, from: nat, limit: nat, page: Page, at: nat) returns (next: nat)
    requires Distinguished(rows) && AllWritten(codec, rows)
    requires from + limit < |rows| && limit > 0 && from <= at < from + limit
    requires page.nextCursor == codec.encode(PositionOf(rows[at]))
    requires forall k :: from <= k < from + limit ==> RowLe(rows[k], rows[at])
    ensures TurnsAt(codec, rows, limit, from, page, next)
  {
    GreatestIsEnd(rows, from, limit, at);
    next := at + 1;
  }

  lemma LastOfPage(rows: seq<Row>, from: nat, limit: nat, items: seq<Row>, r: Row) returns (at: nat)
    requires from + limit <= |rows| && items == rows[from..from + limit] && r in SortRows(items)
    ensures from <= at < from + limit && rows[at] == r
  {
    SortKeepsRows(items, r);
    at := IndexIn(rows, from, limit, items, r);
  }

  lemma IndexIn(rows: seq<Row>, from: nat, limit: nat, items: seq<Row>, r: Row) returns (at: nat)
    requires from + limit <= |rows| && items == rows[from..from + limit] && r in items
    ensures from <= at < from + limit && rows[at] == r
  {
    var k :| 0 <= k < |items| && items[k] == r;
    at := from + k;
  }

  lemma FetchedIsCounted(codec: Codec, rows: seq<Row>, limit: nat, from: nat)
    requires Distinguished(rows) && AllWritten(codec, rows) && from <= |rows| && limit > 0
    ensures CountedPage(codec, rows, limit, from, PageOf(codec, FirstOf(rows[from..], limit)))
  {
    if from + limit < |rows| {
      FetchedMore(codec, rows, limit, from);
      assert FirstOf(rows[from..], limit) == Slice(rows[from..from + limit], true);
      var ordered := SortRows(rows[from..from + limit]);
      var r := ordered[limit - 1];
      var next := TurnOfPage(codec, rows, from, limit, rows[from..from + limit], Page(ordered, codec.encode(PositionOf(r))), r);
    } else {
      assert FirstOf(rows[from..], limit) == Slice(rows[from..], false);
    }
  }

  ghost predicate AllCounted(codec: Codec, list: Listing, rows: seq<Row>, limit: nat)
    requires 0 < limit
  {
    forall cursor, from: nat {:trigger CountedPage(codec, rows, limit, from, list(cursor))} ::
      LeadsTo(codec, cursor, rows, from) && from <= |rows| ==>
        CountedPage(codec, rows, limit, from, list(cursor))
  }

  lemma ServedIsCounted(codec: Codec, port: Port, rows: seq<Row>, limit: nat)
    requires Serves(port, rows, limit) && AllReadBack(codec, rows) && AllWritten(codec, rows)
    requires Distinguished(rows) && limit > 0
    ensures AllCounted(codec, Service(codec, port), rows, limit)
  {
    forall cursor, from: nat {:trigger LeadsTo(codec, cursor, rows, from)} | LeadsTo(codec, cursor, rows, from) && from <= |rows|
      ensures CountedPage(codec, rows, limit, from, ListCampaigns(codec, port, cursor))
    {
      ServedFrom(codec, port, rows, limit, cursor, from);
      FetchedIsCounted(codec, rows, limit, from);
    }
  }

  /** What following the cursor from an index yields: at least the rows from there on, and just
      those, each once, exactly when the page ends agree. */
  ghost predicate YieldsFrom(f: Result<seq<Row>, ReadError>, rows: seq<Row>, from: nat, limit: nat)
    requires from <= |rows| && 0 < limit
  {
    && f.Success?
    && |f.value| >= |rows| - from
    && (PageEndsAgree(rows, from, limit) ==> multiset(f.value) == multiset(rows[from..]))
    && (!PageEndsAgree(rows, from, limit) ==> |f.value| > |rows| - from)
  }

  lemma SameSize(a: seq<Row>, b: seq<Row>)
    requires multiset(a) == multiset(b)
    ensures |a| == |b|
  {
    assert |multiset(a)| == |a| && |multiset(b)| == |b|;
  }

  lemma YieldsStep(
    list: Listing, codec: Codec, rows: seq<Row>, limit: nat, cursor: Option<string>, from: nat, pages: nat, page: Page, next: nat)
    requires pages > 0 && 0 < limit && from + limit < |rows|
    requires list(cursor) == Success(page) && page.nextCursor.Some?
    requires multiset(page.items) == multiset(rows[from..from + limit])
    requires TurnsAt(codec, rows, limit, from, page, next)
    requires YieldsFrom(Follow(list, page.nextCursor, pages - 1), rows, next, limit)
    ensures YieldsFrom(Follow(list, cursor, pages), rows, from, limit)
  {
    FollowOne(list, cursor, pages, page);
    SameSize(page.items, rows[from..from + limit]);
    var rest := Follow(list, page.nextCursor, pages - 1).value;
    assert multiset(page.items + rest) == multiset(page.items) + multiset(rest);
    if PageEndsAgree(rows, from, limit) {
      assert rows[from..] == rows[from..from + limit] + rows[from + limit..];
    }
  }

  lemma {:induction false} FollowCounted(
    codec: Codec, list: Listing, rows: seq<Row>, limit: nat, cursor: Option<string>, from: nat, pages: nat)
    requires 0 < limit && AllCounted(codec, list, rows, limit)
    requires LeadsTo(codec, cursor, rows, from) && from <= |rows| && pages > |rows| - from
    ensures YieldsFrom(Follow(list, cursor, pages), rows, from, limit)
    decreases |rows| - from
  {
    assert CountedPage(codec, rows, limit, from, list(cursor));
    var page := list(cursor).value;
    if from + limit < |rows| {
      assert FirstOf(rows[from..], limit).items == rows[from..from + limit];
      var next: nat :| TurnsAt(codec, rows, limit, from, page, next);
      FollowCounted(codec, list, rows, limit, page.nextCursor, next, pages - 1);
      YieldsStep(list, codec, rows, limit, cursor, from, pages, page, next);
    } else {
      assert FirstOf(rows[from..], limit).items == rows[from..];
      FollowOne(list, cursor, pages, page);
      SameSize(page.items, rows[from..]);
    }
  }

  lemma CountedFromStart(codec: Codec, port: Port, rows: seq<Row>, limit: nat)
    requires Serves(port, rows, limit) && AllReadBack(codec, rows) && AllWritten(codec, rows)
    requires Distinguished(rows) && limit > 0
    ensures YieldsFrom(Follow(Service(codec, port), None, |rows| + 1), rows, 0, limit)
  {
    ServedIsCounted(codec, port, rows, limit);
    FollowCounted(codec, Service(codec, port), rows, limit, None, 0, |rows| + 1);
  }

  /** Whatever order the database ranks ids in, a client that follows the cursors receives every
      campaign exactly once if and only if every page but the last ends, by the database's order, in
      the row that the service sorts last. */
  lemma OnceExactlyWhenEndsAgree(reader: Readers, before: IdOrder, rows: seq<Row>, limit: int, asOf: int)
    requires Conforming(reader) && AllRepresentable(rows)
    requires Asymmetric(before) && Listed(before, rows) && SeenBy(rows, asOf)
    requires forall i :: 0 <= i < |rows| ==> ValidId(rows[i].id) && InUtcRange(rows[i].observedAt)
    requires 1 <= limit <= MAX_PAGE_SIZE
    ensures var f := Follow(Service(CursorCodec(reader), DatabasePort(before, rows, limit, asOf)), None, |rows| + 1);
            f.Success? && (multiset(f.value) == multiset(rows) <==> PageEndsAgree(rows, 0, limit))
  {
    AdapterServes(before, rows, limit, asOf);
    AllCursorsReadBack(reader, rows);
    AllCursorsWritten(reader, rows);
    ListedIsDistinguished(before, rows);
    CountedFromStart(CursorCodec(reader), DatabasePort(before, rows, limit, asOf), rows, limit);
    OnceIfSameSize(Follow(Service(CursorCodec(reader), DatabasePort(before, rows, limit, asOf)), None, |rows| + 1), rows, limit);
  }

  lemma OnceIfSameSize(f: Result<seq<Row>, ReadError>, rows: seq<Row>, limit: nat)
    requires 0 < limit && YieldsFrom(f, rows, 0, limit)
    ensures f.Success? && (multiset(f.value) == multiset(rows) <==> PageEndsAgree(rows, 0, limit))
  {
    assert rows[0..] == rows;
    if multiset(f.value) == multiset(rows) {
      SameSize(f.value, rows);
    }
  }

  // ----- an order that differs

  function Folded(s: string): string {
    if s == "" then ""
    else [if 'A' <= s[0] <= 'Z' then (s[0] as int + 32) as char else s[0]] + Folded(s[1..])
  }

  /** Ids ranked without regard to case, as many collations rank them first. */
  function ByFolded(): IdOrder {
    (a: string, b: string) => !StrLe(Folded(b), Folded(a))
  }

  lemma FoldedAsymmetric()
    ensures Asymmetric(ByFolded())
  {
    forall a, b | ByFolded()(a, b)
      ensures !ByFolded()(b, a)
    {
      StrLeTotal(Folded(a), Folded(b));
    }
  }

  lemma FoldedOrder()
    ensures ByFolded()("a", "B") && ByFolded()("B", "c") && ByFolded()("a", "c")
  {
    assert Folded("a") == "a" && Folded("B") == "b" && Folded("c") == "c";
  }

  /** Three campaigns observed at once. */
  function CaseRows(at: Aware): seq<Row> {
    [Row(at, "a"), Row(at, "B"), Row(at, "c")]
  }

  lemma CaseRowsListed(at: Aware)
    ensures Listed(ByFolded(), CaseRows(at))
  {
    FoldedOrder();
  }

  lemma CaseRowsServed(at: Aware, asOf: int)
    requires at.instant <= asOf
    ensures Serves(DatabasePort(ByFolded(), CaseRows(at), 2, asOf), CaseRows(at), 2)
  {
    FoldedAsymmetric();
    CaseRowsListed(at);
    AdapterServes(ByFolded(), CaseRows(at), 2, asOf);
  }

  lemma CaseRowsReadBack(at: Aware)
    requires Representable(at) && InUtcRange(at)
    ensures AllReadBack(CursorCodec(Plainest()), CaseRows(at))
    ensures CursorCodec(Plainest()).encode(PositionOf(Row(at, "a"))).Some?
  {
    PlainestConforms();
    AllCursorsReadBack(Plainest(), CaseRows(at));
    CursorReadsBack(Plainest(), Row(at, "a"));
  }

  lemma CaseMakesOrdersDiffer(at: Aware)
    ensures !RowLe(Row(at, "a"), Row(at, "B")) && RowLe(Row(at, "B"), Row(at, "c"))
  {
  }

  /** Over a database that ranks ids without regard to case, a client that follows the cursors through
      pages of two receives one of three campaigns twice. */
  lemma FoldedOrderRepeats(at: Aware, asOf: int)
    requires Representable(at) && InUtcRange(at) && at.instant <= asOf
    ensures Follow(Service(CursorCodec(Plainest()), DatabasePort(ByFolded(), CaseRows(at), 2, asOf)), None, 4)
         == Success([Row(at, "B"), Row(at, "a")] + [Row(at, "B"), Row(at, "c")])
  {
    CaseRowsServed(at, asOf);
    CaseRowsReadBack(at);
    CaseMakesOrdersDiffer(at);
    OtherOrderRepeats(
      CursorCodec(Plainest()), DatabasePort(ByFolded(), CaseRows(at), 2, asOf), Row(at, "a"), Row(at, "B"), Row(at, "c"));
  }
}
