/** Keyset paging over a fixed snapshot: what the read adapter returns, what the listing service makes
    of it, what a client that follows the cursors receives, and what the export loop collects. */
module Pagination {
  import opened Wrappers
  import opened Timestamps
  import opened Cursor
  import opened Ordering

  const MAX_PAGE_SIZE := 100
  const EXPORT_PAGE_SIZE := 100
  const MAX_RECORDS := 10_000

  datatype Row = Row(observedAt: Aware, id: string)

  datatype ReadError = BadLimit | CursorTooLate | CursorUnknown | BadCursor | CursorOverflow | CursorUnwritable | PositionUnfit | TooManyRecords | Unfinished

  datatype Slice = Slice(items: seq<Row>, hasMore: bool)

  datatype Page = Page(items: seq<Row>, nextCursor: Option<string>)

  /** What the service and the export ask: the rows after a position, or the first rows. */
  type Port = Option<Position> -> Result<Slice, ReadError>

  function PositionOf(r: Row): Position {
    Position(r.observedAt, r.id)
  }

  // ----- the read adapter

  /** The strict order in which the database ranks ids; it need not be by code points. */
  type IdOrder = (string, string) -> bool

  ghost predicate Asymmetric(before: IdOrder) {
    forall a, b :: before(a, b) ==> !before(b, a)
  }

  /** The query's condition: observed earlier than the position, or at once with a later id. */
  predicate After(before: IdOrder, r: Row, p: Position) {
    r.observedAt.instant < p.observedAt.instant
    || (r.observedAt.instant == p.observedAt.instant && before(p.id, r.id))
  }

  function Selected(before: IdOrder, rows: seq<Row>, p: Position): seq<Row> {
    if rows == [] then []
    else if After(before, rows[0], p) then [rows[0]] + Selected(before, rows[1..], p)
    else Selected(before, rows[1..], p)
  }

  /** The cursor names a row by instant and id. */
  predicate Names(p: Position, r: Row) {
    r.id == p.id && r.observedAt.instant == p.observedAt.instant
  }

  predicate Holds(rows: seq<Row>, p: Position) {
    exists i :: 0 <= i < |rows| && Names(p, rows[i])
  }

  /** A limited query that asks for one row more than the limit. */
  function FirstOf(rows: seq<Row>, limit: nat): Slice {
    if limit < |rows| then Slice(rows[..limit], true) else Slice(rows, false)
  }

  /** One read of the snapshot, whose rows are given in the query's order. */
  function ListLatest(
    before: IdOrder, rows: seq<Row>, after: Option<Position>, limit: int, asOf: int): Result<Slice, ReadError>
  {
    if limit < 1 || limit > MAX_PAGE_SIZE then Failure(BadLimit)
    else if after.None? then Success(FirstOf(rows, limit))
    else if after.value.observedAt.instant > asOf then Failure(CursorTooLate)
    else if !Holds(rows, after.value) then Failure(CursorUnknown)
    else Success(FirstOf(Selected(before, rows, after.value), limit))
  }

  function DatabasePort(before: IdOrder, rows: seq<Row>, limit: int, asOf: int): Port {
    (after: Option<Position>) => ListLatest(before, rows, after, limit, asOf)
  }

  /** The rows stand in the query's order: newest first, ties by id. */
  ghost predicate Listed(before: IdOrder, rows: seq<Row>) {
    forall i, j :: 0 <= i < j < |rows| ==> After(before, rows[j], PositionOf(rows[i]))
  }

  ghost predicate SeenBy(rows: seq<Row>, asOf: int) {
    forall i :: 0 <= i < |rows| ==> rows[i].observedAt.instant <= asOf
  }

  lemma {:induction false} SelectedAll(before: IdOrder, rows: seq<Row>, p: Position)
    requires forall j :: 0 <= j < |rows| ==> After(before, rows[j], p)
    ensures Selected(before, rows, p) == rows
  {
    if rows != [] {
      SelectedAll(before, rows[1..], p);
    }
  }

  lemma {:induction false} SelectedSplit(before: IdOrder, rows: seq<Row>, i: nat, p: Position)
    requires i < |rows|
    requires forall j :: 0 <= j <= i ==> !After(before, rows[j], p)
    requires forall j :: i < j < |rows| ==> After(before, rows[j], p)
    ensures Selected(before, rows, p) == rows[i + 1..]
  {
    if i == 0 {
      SelectedAll(before, rows[1..], p);
    } else {
      SelectedSplit(before, rows[1..], i - 1, p);
    }
  }

  /** The query's condition selects exactly the rows listed after the one the position names. */
  lemma ConditionSelectsTheRest(before: IdOrder, rows: seq<Row>, i: nat, p: Position)
    requires Asymmetric(before) && Listed(before, rows)
    requires i < |rows| && Names(p, rows[i])
    ensures Selected(before, rows, p) == rows[i + 1..]
  {
    forall j | 0 <= j <= i
      ensures !After(before, rows[j], p)
    {
      assert j < i ==> After(before, rows[i], PositionOf(rows[j]));
    }
    forall j | i < j < |rows|
      ensures After(before, rows[j], p)
    {
      assert After(before, rows[j], PositionOf(rows[i]));
    }
    SelectedSplit(before, rows, i, p);
  }

  /** A port that returns the next `limit` rows after the one a position names. */
  ghost predicate Serves(port: Port, rows: seq<Row>, limit: nat) {
    && port(None) == Success(FirstOf(rows, limit))
    && forall i, p {:trigger Names(p, rows[i])} :: 0 <= i < |rows| && Names(p, rows[i]) ==> port(Some(p)) == Success(FirstOf(rows[i + 1..], limit))
  }

  /** The adapter's query is such a port, whatever order the database ranks ids in. */
  lemma AdapterServes(before: IdOrder, rows: seq<Row>, limit: int, asOf: int)
    requires Asymmetric(before) && Listed(before, rows) && SeenBy(rows, asOf)
    requires 1 <= limit <= MAX_PAGE_SIZE
    ensures Serves(DatabasePort(before, rows, limit, asOf), rows, limit)
  {
    forall i, p | 0 <= i < |rows| && Names(p, rows[i])
      ensures DatabasePort(before, rows, limit, asOf)(Some(p)) == Success(FirstOf(rows[i + 1..], limit))
    {
      ConditionSelectsTheRest(before, rows, i, p);
    }
  }

  // ----- the service's sort

  /** The service's sort key: newest first, then id in code-point order. */
  predicate RowLe(a: Row, b: Row) {
    a.observedAt.instant > b.observedAt.instant
    || (a.observedAt.instant == b.observedAt.instant && StrLe(a.id, b.id))
  }

  ghost predicate Sorted(rows: seq<Row>) {
    forall i, j :: 0 <= i < j < |rows| ==> RowLe(rows[i], rows[j])
  }

  function InsertRow(r: Row, rows: seq<Row>): (s: seq<Row>)
    ensures multiset(s) == multiset{r} + multiset(rows)
  {
    if rows == [] then [r]
    else if RowLe(r, rows[0]) then [r] + rows
    else
      assert rows == [rows[0]] + rows[1..];
      [rows[0]] + InsertRow(r, rows[1..])
  }

  function SortRows(rows: seq<Row>): (s: seq<Row>)
    ensures multiset(s) == multiset(rows)
    ensures |s| == |rows|
  {
    if rows == [] then []
    else
      assert rows == [rows[0]] + rows[1..];
      var s := InsertRow(rows[0], SortRows(rows[1..]));
      assert |multiset(s)| == |multiset(rows)|;
      s
  }

  lemma {:induction false} SortedStays(rows: seq<Row>)
    requires Sorted(rows)
    ensures SortRows(rows) == rows
  {
    if rows != [] {
      SortedStays(rows[1..]);
      assert rows == [rows[0]] + rows[1..];
    }
  }

  /** Ids ranked by code points, as the service ranks them. */
  function ByCodePoint(): IdOrder {
    (a: string, b: string) => !StrLe(b, a)
  }

  lemma ListedIsSorted(rows: seq<Row>)
    requires Listed(ByCodePoint(), rows)
    ensures Sorted(rows)
  {
    forall i, j | 0 <= i < j < |rows|
      ensures RowLe(rows[i], rows[j])
    {
      assert After(ByCodePoint(), rows[j], PositionOf(rows[i]));
      StrLeTotal(rows[i].id, rows[j].id);
    }
  }

  lemma CodePointsAsymmetric()
    ensures Asymmetric(ByCodePoint())
  {
    forall a, b | ByCodePoint()(a, b)
      ensures !ByCodePoint()(b, a)
    {
      StrLeTotal(a, b);
    }
  }

  // ----- the service

  /** The codec the service holds. */
  datatype Codec = Codec(encode: Position -> Option<string>, decode: string -> Decoded)

  /** The service's own codec; a position with an unfit id cannot even be made. */
  function CursorCodec(reader: Readers): Codec {
    Codec((p: Position) => if ValidId(p.id) then EncodePosition(p) else None, (s: string) => DecodeValue(reader, s))
  }

  /** Whatever the codec writes for a row, it reads back as a position that names the row. */
  ghost predicate ReadsBack(codec: Codec, r: Row) {
    var written := codec.encode(PositionOf(r));
    written.Some? ==>
      var back := codec.decode(written.value);
      back.Accepted? && Names(back.position, r)
  }

  ghost predicate AllReadBack(codec: Codec, rows: seq<Row>) {
    forall i :: 0 <= i < |rows| ==> ReadsBack(codec, rows[i])
  }

  lemma CursorReadsBack(reader: Readers, r: Row)
    requires Conforming(reader) && Representable(r.observedAt)
    ensures ReadsBack(CursorCodec(reader), r)
    ensures CursorCodec(reader).encode(PositionOf(r)).Some? <==> ValidId(r.id) && InUtcRange(r.observedAt)
  {
    var p := PositionOf(r);
    if ValidId(p.id) && InUtcRange(p.observedAt) {
      DecodeUndoesEncode(reader, p);
    }
  }

  function DecodeCursor(codec: Codec, cursor: Option<string>): Result<Option<Position>, ReadError> {
    match cursor
    case None => Success(None)
    case Some(text) =>
      match codec.decode(text)
      case Accepted(p) => Success(Some(p))
      case Rejected => Failure(BadCursor)
      case Overflowed => Failure(CursorOverflow)
  }

  /** A page of the response: the rows sorted, and the last of them as cursor when there is more. */
  function PageOf(codec: Codec, slice: Slice): Result<Page, ReadError> {
    var ordered := SortRows(slice.items);
    if !slice.hasMore || ordered == [] then Success(Page(ordered, None))
    else
      var next := codec.encode(PositionOf(ordered[|ordered| - 1]));
      if next.None? then Failure(CursorUnwritable) else Success(Page(ordered, next))
  }

  /** The campaign list. */
  function ListCampaigns(codec: Codec, port: Port, cursor: Option<string>): Result<Page, ReadError> {
    match DecodeCursor(codec, cursor)
    case Failure(e) => Failure(e)
    case Success(after) =>
      match port(after)
      case Failure(e) => Failure(e)
      case Success(slice) => PageOf(codec, slice)
  }

  /** The endpoint as a client sees it. */
  type Listing = Option<string> -> Result<Page, ReadError>

  function Service(codec: Codec, port: Port): Listing {
    (cursor: Option<string>) => ListCampaigns(codec, port, cursor)
  }

  /** A client that follows the cursor until there is none. */
  function Follow(list: Listing, cursor: Option<string>, pages: nat): Result<seq<Row>, ReadError>
    decreases pages
  {
    if pages == 0 then Failure(Unfinished)
    else
      match list(cursor)
      case Failure(e) => Failure(e)
      case Success(page) =>
        if page.nextCursor.None? then Success(page.items)
        else
          match Follow(list, page.nextCursor, pages - 1)
          case Failure(e) => Failure(e)
          case Success(rest) => Success(page.items + rest)
  }

  lemma FollowOne(list: Listing, cursor: Option<string>, pages: nat, page: Page)
    requires pages > 0 && list(cursor) == Success(page)
    ensures page.nextCursor.None? ==> Follow(list, cursor, pages) == Success(page.items)
    ensures page.nextCursor.Some? ==>
              var rest := Follow(list, page.nextCursor, pages - 1);
              Follow(list, cursor, pages) == if rest.Success? then Success(page.items + rest.value) else rest
  {
  }

  lemma FollowFails(list: Listing, cursor: Option<string>, pages: nat, e: ReadError)
    requires pages > 0 && list(cursor) == Failure(e)
    ensures Follow(list, cursor, pages) == Failure(e)
  {
  }

  // ----- refusals

  lemma CursorDecodes(reader: Readers, p: Position, text: string)
    requires Conforming(reader) && ValidPosition(p) && EncodePosition(p) == Some(text)
    ensures DecodeCursor(CursorCodec(reader), Some(text)) == Success(Some(InUtc(p)))
  {
    AcceptedAreEncodings(reader, text);
  }

  lemma HoldsExactly(rows: seq<Row>, p: Position)
    ensures Holds(rows, p) <==>
              exists i :: 0 <= i < |rows| && rows[i].id == p.id && rows[i].observedAt.instant == p.observedAt.instant
  {
    if i :| 0 <= i < |rows| && rows[i].id == p.id && rows[i].observedAt.instant == p.observedAt.instant {
      assert Names(p, rows[i]);
    }
  }

  /** What a request answers that carries the cursor of a position: a limit outside 1 to 100 is refused
      first, then an instant later than the snapshot, then a position that no row of the snapshot
      stands at, by instant and id; any other is answered with the rows after that row. */
  lemma CursorRequestExactly(
    reader: Readers, before: IdOrder, rows: seq<Row>, limit: int, asOf: int, p: Position, text: string)
    requires Conforming(reader) && Asymmetric(before) && Listed(before, rows)
    requires ValidPosition(p) && EncodePosition(p) == Some(text)
    ensures var answer := Service(CursorCodec(reader), DatabasePort(before, rows, limit, asOf))(Some(text));
            && (limit < 1 || limit > 100 ==> answer == Failure(BadLimit))
            && (1 <= limit <= 100 && p.observedAt.instant > asOf ==> answer == Failure(CursorTooLate))
            && (1 <= limit <= 100 && p.observedAt.instant <= asOf
                && (forall i :: 0 <= i < |rows| ==> rows[i].id != p.id || rows[i].observedAt.instant != p.observedAt.instant)
                ==> answer == Failure(CursorUnknown))
            && (1 <= limit <= 100 && p.observedAt.instant <= asOf ==>
                  forall i :: 0 <= i < |rows| && rows[i].id == p.id && rows[i].observedAt.instant == p.observedAt.instant
                    ==> answer == PageOf(CursorCodec(reader), FirstOf(rows[i + 1..], limit)))
  {
    CursorDecodes(reader, p, text);
    HoldsExactly(rows, InUtc(p));
    forall i | 0 <= i < |rows| && rows[i].id == p.id && rows[i].observedAt.instant == p.observedAt.instant
      ensures Selected(before, rows, InUtc(p)) == rows[i + 1..]
    {
      ConditionSelectsTheRest(before, rows, i, InUtc(p));
    }
  }

  /** A text that is the cursor of no position is refused: as a bad cursor, unless what it names lies
      outside the calendar in UTC, which ends in the overflow. */
  lemma OtherTextsRefused(reader: Readers, port: Port, text: string)
    requires Conforming(reader)
    requires forall p :: ValidPosition(p) ==> EncodePosition(p) != Some(text)
    ensures Service(CursorCodec(reader), port)(Some(text)) == Failure(CursorOverflow) <==>
              ReadPosition(reader, text).Some? && !InUtcRange(ReadPosition(reader, text).value.observedAt)
    ensures Service(CursorCodec(reader), port)(Some(text)) == Failure(CursorOverflow)
         || Service(CursorCodec(reader), port)(Some(text)) == Failure(BadCursor)
  {
    AcceptedAreEncodings(reader, text);
  }

  /** The cursor leads the port to the rows from an index on. */
  ghost predicate LeadsTo(codec: Codec, cursor: Option<string>, rows: seq<Row>, from: nat) {
    if from == 0 then cursor.None?
    else from <= |rows| && cursor.Some? && cursor == codec.encode(PositionOf(rows[from - 1]))
  }

  lemma ServedFrom(codec: Codec, port: Port, rows: seq<Row>, limit: nat, cursor: Option<string>, from: nat)
    requires Serves(port, rows, limit) && AllReadBack(codec, rows)
    requires LeadsTo(codec, cursor, rows, from) && from <= |rows|
    ensures ListCampaigns(codec, port, cursor) == PageOf(codec, FirstOf(rows[from..], limit))
  {
    if from == 0 {
      assert rows[0..] == rows;
    } else {
      assert ReadsBack(codec, rows[from - 1]);
    }
  }

  // ----- paging in the service's own order

  /** No page but the last ends in a row that cannot be written as a cursor. */
  predicate PageEndsWritable(codec: Codec, rows: seq<Row>, from: nat, limit: nat)
    requires limit > 0
    decreases |rows| - from
  {
    from + limit >= |rows|
    || (codec.encode(PositionOf(rows[from + limit - 1])).Some? && PageEndsWritable(codec, rows, from + limit, limit))
  }

  lemma SortedPage(codec: Codec, rows: seq<Row>, from: nat, limit: nat)
    requires Sorted(rows) && from <= |rows| && limit > 0
    ensures PageOf(codec, FirstOf(rows[from..], limit)) == NextPage(codec, rows, from, limit)
  {
    var slice := FirstOf(rows[from..], limit);
    assert slice.items == if from + limit < |rows| then rows[from..from + limit] else rows[from..];
    assert Sorted(slice.items);
    SortedStays(slice.items);
  }

  lemma FollowNext(
    list: Listing, rows: seq<Row>, limit: nat, cursor: Option<string>, from: nat, pages: nat, next: Option<string>)
    requires pages > 0 && from + limit < |rows| && next.Some?
    requires list(cursor) == Success(Page(rows[from..from + limit], next))
    ensures Follow(list, next, pages - 1) == Success(rows[from + limit..]) ==>
              Follow(list, cursor, pages) == Success(rows[from..])
    ensures Follow(list, next, pages - 1) == Failure(CursorUnwritable) ==>
              Follow(list, cursor, pages) == Failure(CursorUnwritable)
  {
    FollowOne(list, cursor, pages, Page(rows[from..from + limit], next));
    assert rows[from..] == rows[from..from + limit] + rows[from + limit..];
  }

  /** What following the cursor comes to from an index on. */
  ghost predicate FollowedFrom(codec: Codec, list: Listing, rows: seq<Row>, limit: nat, cursor: Option<string>, from: nat, pages: nat)
    requires from <= |rows| && limit > 0
  {
    Follow(list, cursor, pages)
    == if PageEndsWritable(codec, rows, from, limit) then Success(rows[from..]) else Failure(CursorUnwritable)
  }

  /** Each page is the next `limit` rows, with the last of them as cursor. */
  ghost predicate Paged(codec: Codec, list: Listing, rows: seq<Row>, limit: nat) {
    forall cursor, from: nat {:trigger LeadsTo(codec, cursor, rows, from)} ::
      LeadsTo(codec, cursor, rows, from) && from <= |rows| ==>
        list(cursor) == NextPage(codec, rows, from, limit)
  }

  function NextPage(codec: Codec, rows: seq<Row>, from: nat, limit: nat): Result<Page, ReadError>
    requires from <= |rows|
  {
    if limit == 0 || from + limit >= |rows| then Success(Page(rows[from..], None))
    else
      var next := codec.encode(PositionOf(rows[from + limit - 1]));
      if next.None? then Failure(CursorUnwritable) else Success(Page(rows[from..from + limit], next))
  }

  lemma SortedIsPaged(codec: Codec, port: Port, rows: seq<Row>, limit: nat)
    requires Serves(port, rows, limit) && AllReadBack(codec, rows) && Sorted(rows) && limit > 0
    ensures Paged(codec, Service(codec, port), rows, limit)
  {
    forall cursor, from: nat {:trigger LeadsTo(codec, cursor, rows, from)} | LeadsTo(codec, cursor, rows, from) && from <= |rows|
      ensures ListCampaigns(codec, port, cursor) == NextPage(codec, rows, from, limit)
    {
      ServedFrom(codec, port, rows, limit, cursor, from);
      SortedPage(codec, rows, from, limit);
    }
  }

  lemma {:induction false} FollowFrom(
    codec: Codec, list: Listing, rows: seq<Row>, limit: nat, cursor: Option<string>, from: nat, pages: nat)
    requires Paged(codec, list, rows, limit)
    requires LeadsTo(codec, cursor, rows, from) && from <= |rows| && limit > 0 && pages > |rows| - from
    ensures FollowedFrom(codec, list, rows, limit, cursor, from, pages)
    decreases |rows| - from
  {
    if from + limit < |rows| {
      var next := codec.encode(PositionOf(rows[from + limit - 1]));
      if next.Some? {
        FollowFrom(codec, list, rows, limit, next, from + limit, pages - 1);
        FollowNext(list, rows, limit, cursor, from, pages, next);
      } else {
        FollowFails(list, cursor, pages, CursorUnwritable);
      }
    } else {
      FollowOne(list, cursor, pages, Page(rows[from..], None));
    }
  }

  lemma FollowAll(codec: Codec, port: Port, rows: seq<Row>, limit: nat)
    requires Serves(port, rows, limit) && AllReadBack(codec, rows) && Sorted(rows) && limit > 0
    ensures Follow(Service(codec, port), None, |rows| + 1)
         == if PageEndsWritable(codec, rows, 0, limit) then Success(rows) else Failure(CursorUnwritable)
  {
    SortedIsPaged(codec, port, rows, limit);
    FollowFrom(codec, Service(codec, port), rows, limit, None, 0, |rows| + 1);
    assert rows[0..] == rows;
  }

  ghost predicate AllRepresentable(rows: seq<Row>) {
    forall i :: 0 <= i < |rows| ==> Representable(rows[i].observedAt)
  }

  lemma AllCursorsReadBack(reader: Readers, rows: seq<Row>)
    requires Conforming(reader) && AllRepresentable(rows)
    ensures AllReadBack(CursorCodec(reader), rows)
  {
    forall i | 0 <= i < |rows|
      ensures ReadsBack(CursorCodec(reader), rows[i])
    {
      CursorReadsBack(reader, rows[i]);
    }
  }

  /** Lossless paging: over a snapshot whose ids the database ranks by code points, a client that
      follows the cursors finishes and receives every campaign exactly once, in order; it fails if
      and only if some page ends in a row that cannot be written as a cursor. */
  lemma PagingIsLossless(reader: Readers, rows: seq<Row>, limit: int, asOf: int)
    requires Conforming(reader) && AllRepresentable(rows)
    requires Listed(ByCodePoint(), rows) && SeenBy(rows, asOf)
    requires 1 <= limit <= MAX_PAGE_SIZE
    ensures Follow(Service(CursorCodec(reader), DatabasePort(ByCodePoint(), rows, limit, asOf)), None, |rows| + 1)
         == if PageEndsWritable(CursorCodec(reader), rows, 0, limit) then Success(rows) else Failure(CursorUnwritable)
  {
    CodePointsAsymmetric();
    AdapterServes(ByCodePoint(), rows, limit, asOf);
    AllCursorsReadBack(reader, rows);
    ListedIsSorted(rows);
    FollowAll(CursorCodec(reader), DatabasePort(ByCodePoint(), rows, limit, asOf), rows, limit);
  }

  // ----- paging over a database that ranks ids differently

  ghost predicate AllWritten(codec: Codec, rows: seq<Row>) {
    forall i :: 0 <= i < |rows| ==> codec.encode(PositionOf(rows[i])).Some?
  }

  lemma SortKeepsRows(items: seq<Row>, r: Row)
    ensures r in items <==> r in SortRows(items)
  {
    assert r in items <==> r in multiset(items);
    assert r in SortRows(items) <==> r in multiset(SortRows(items));
  }

  ghost predicate Within(rows: seq<Row>, from: nat, limit: nat, items: seq<Row>) {
    forall k :: from <= k < from + limit && k < |rows| ==> rows[k] in items
  }

  /** The cursor leads on to one of the rows after `from` and not past the limit. */
  ghost predicate MovesOn(codec: Codec, rows: seq<Row>, from: nat, limit: nat, cursor: Option<string>) {
    exists next: nat :: from < next <= from + limit && LeadsTo(codec, cursor, rows, next)
  }

  /** A page with all its rows, and as cursor one of them when there are more. */
  ghost predicate FullPage(codec: Codec, rows: seq<Row>, limit: nat, from: nat, page: Result<Page, ReadError>) {
    && page.Success?
    && Within(rows, from, limit, page.value.items)
    && (if from + limit < |rows| then page.value.nextCursor.Some? && MovesOn(codec, rows, from, limit, page.value.nextCursor)
        else page.value.nextCursor.None?)
  }

  lemma FetchedRows(rows: seq<Row>, from: nat, limit: nat)
    requires from <= |rows|
    ensures Within(rows, from, limit, SortRows(FirstOf(rows[from..], limit).items))
  {
    var items := FirstOf(rows[from..], limit).items;
    forall k | from <= k < from + limit && k < |rows|
      ensures rows[k] in SortRows(items)
    {
      assert rows[k] == items[k - from];
      SortKeepsRows(items, rows[k]);
    }
  }

  lemma FetchedCursor(codec: Codec, rows: seq<Row>, from: nat, limit: nat, items: seq<Row>)
    requires from + limit < |rows| && limit > 0 && items == rows[from..from + limit]
    requires AllWritten(codec, rows)
    ensures codec.encode(PositionOf(SortRows(items)[limit - 1])).Some?
    ensures MovesOn(codec, rows, from, limit, codec.encode(PositionOf(SortRows(items)[limit - 1])))
  {
    var r := SortRows(items)[limit - 1];
    SortKeepsRows(items, r);
    var k :| 0 <= k < |items| && items[k] == r;
    assert rows[from + k] == r;
    assert LeadsTo(codec, codec.encode(PositionOf(r)), rows, from + k + 1);
  }

  lemma FetchedIsFull(codec: Codec, rows: seq<Row>, limit: nat, from: nat)
    requires AllWritten(codec, rows) && from <= |rows| && limit > 0
    ensures FullPage(codec, rows, limit, from, PageOf(codec, FirstOf(rows[from..], limit)))
  {
    FetchedRows(rows, from, limit);
    if from + limit < |rows| {
      FetchedMore(codec, rows, limit, from);
    } else {
      assert FirstOf(rows[from..], limit) == Slice(rows[from..], false);
    }
  }

  lemma FetchedMore(codec: Codec, rows: seq<Row>, limit: nat, from: nat)
    requires AllWritten(codec, rows) && from + limit < |rows| && limit > 0
    ensures var items := SortRows(FirstOf(rows[from..], limit).items);
            var next := codec.encode(PositionOf(items[limit - 1]));
            && PageOf(codec, FirstOf(rows[from..], limit)) == Success(Page(items, next))
            && next.Some? && MovesOn(codec, rows, from, limit, next)
  {
    var items := rows[from..from + limit];
    assert FirstOf(rows[from..], limit) == Slice(items, true);
    FetchedCursor(codec, rows, from, limit, items);
    PageWithMore(codec, items);
  }

  lemma PageWithMore(codec: Codec, items: seq<Row>)
    requires items != [] && codec.encode(PositionOf(SortRows(items)[|items| - 1])).Some?
    ensures PageOf(codec, Slice(items, true))
         == Success(Page(SortRows(items), codec.encode(PositionOf(SortRows(items)[|items| - 1]))))
  {
  }

  ghost predicate FullyPaged(codec: Codec, list: Listing, rows: seq<Row>, limit: nat) {
    forall cursor, from: nat {:trigger LeadsTo(codec, cursor, rows, from), list(cursor)} ::
      LeadsTo(codec, cursor, rows, from) && from <= |rows| ==>
        FullPage(codec, rows, limit, from, list(cursor))
  }

  lemma ServedIsFullyPaged(codec: Codec, port: Port, rows: seq<Row>, limit: nat)
    requires Serves(port, rows, limit) && AllReadBack(codec, rows) && AllWritten(codec, rows) && limit > 0
    ensures FullyPaged(codec, Service(codec, port), rows, limit)
  {
    forall cursor, from: nat {:trigger LeadsTo(codec, cursor, rows, from)} | LeadsTo(codec, cursor, rows, from) && from <= |rows|
      ensures FullPage(codec, rows, limit, from, ListCampaigns(codec, port, cursor))
    {
      ServedFrom(codec, port, rows, limit, cursor, from);
      FetchedIsFull(codec, rows, limit, from);
    }
  }

  /** Following the cursor finishes and yields the row asked for, when that lies ahead. */
  ghost predicate Finds(list: Listing, cursor: Option<string>, pages: nat, rows: seq<Row>, from: nat, wanted: nat) {
    var r := Follow(list, cursor, pages);
    r.Success? && (from <= wanted < |rows| ==> rows[wanted] in r.value)
  }

  lemma FindsStep(
    list: Listing, rows: seq<Row>, limit: nat, cursor: Option<string>, from: nat, pages: nat, wanted: nat, page: Page, next: nat)
    requires pages > 0 && list(cursor) == Success(page) && page.nextCursor.Some?
    requires Within(rows, from, limit, page.items) && next <= from + limit
    requires Finds(list, page.nextCursor, pages - 1, rows, next, wanted)
    ensures Finds(list, cursor, pages, rows, from, wanted)
  {
    FollowOne(list, cursor, pages, page);
  }

  lemma FindsLast(
    list: Listing, rows: seq<Row>, limit: nat, cursor: Option<string>, from: nat, pages: nat, wanted: nat, page: Page)
    requires pages > 0 && list(cursor) == Success(page) && page.nextCursor.None?
    requires Within(rows, from, limit, page.items) && from + limit >= |rows|
    ensures Finds(list, cursor, pages, rows, from, wanted)
  {
    FollowOne(list, cursor, pages, page);
  }

  lemma {:induction false} NoneSkippedFrom(
    codec: Codec, list: Listing, rows: seq<Row>, limit: nat, cursor: Option<string>, from: nat, pages: nat, wanted: nat)
    requires FullyPaged(codec, list, rows, limit)
    requires LeadsTo(codec, cursor, rows, from) && from <= |rows| && limit > 0 && pages > |rows| - from
    ensures Finds(list, cursor, pages, rows, from, wanted)
    decreases |rows| - from
  {
    var page := list(cursor).value;
    if from + limit < |rows| {
      var next: nat :| from < next <= from + limit && LeadsTo(codec, page.nextCursor, rows, next);
      NoneSkippedFrom(codec, list, rows, limit, page.nextCursor, next, pages - 1, wanted);
      FindsStep(list, rows, limit, cursor, from, pages, wanted, page, next);
    } else {
      FindsLast(list, rows, limit, cursor, from, pages, wanted, page);
    }
  }

  lemma NoneSkipped(codec: Codec, port: Port, rows: seq<Row>, limit: nat, wanted: nat)
    requires Serves(port, rows, limit) && AllReadBack(codec, rows) && AllWritten(codec, rows) && limit > 0
    ensures Finds(Service(codec, port), None, |rows| + 1, rows, 0, wanted)
  {
    ServedIsFullyPaged(codec, port, rows, limit);
    NoneSkippedFrom(codec, Service(codec, port), rows, limit, None, 0, |rows| + 1, wanted);
  }

  lemma AllCursorsWritten(reader: Readers, rows: seq<Row>)
    requires Conforming(reader) && AllRepresentable(rows)
    requires forall i :: 0 <= i < |rows| ==> ValidId(rows[i].id) && InUtcRange(rows[i].observedAt)
    ensures AllWritten(CursorCodec(reader), rows)
  {
    forall i | 0 <= i < |rows|
      ensures CursorCodec(reader).encode(PositionOf(rows[i])).Some?
    {
      CursorReadsBack(reader, rows[i]);
    }
  }

  /** Whatever order the database ranks ids in, a client that follows the cursors finishes and misses
      no campaign. */
  lemma PagingSkipsNone(reader: Readers, before: IdOrder, rows: seq<Row>, limit: int, asOf: int, wanted: nat)
    requires Conforming(reader) && AllRepresentable(rows)
    requires Asymmetric(before) && Listed(before, rows) && SeenBy(rows, asOf)
    requires forall i :: 0 <= i < |rows| ==> ValidId(rows[i].id) && InUtcRange(rows[i].observedAt)
    requires 1 <= limit <= MAX_PAGE_SIZE && wanted < |rows|
    ensures Finds(
      Service(CursorCodec(reader), DatabasePort(before, rows, limit, asOf)), None, |rows| + 1, rows, 0, wanted)
  {
    AdapterServes(before, rows, limit, asOf);
    AllCursorsReadBack(reader, rows);
    AllCursorsWritten(reader, rows);
    NoneSkipped(CursorCodec(reader), DatabasePort(before, rows, limit, asOf), rows, limit, wanted);
  }

  lemma PairSorted(codec: Codec, a: Row, b: Row)
    ensures RowLe(a, b) ==> PageOf(codec, Slice([a, b], false)) == Success(Page([a, b], None))
    ensures !RowLe(a, b) && codec.encode(PositionOf(a)).Some? ==>
              PageOf(codec, Slice([a, b], true)) == Success(Page([b, a], codec.encode(PositionOf(a))))
  {
    TwoRowsSorted(a, b);
  }

  lemma FirstPairs(a: Row, b: Row, c: Row)
    ensures FirstOf([a, b, c][0..], 2) == Slice([a, b], true)
    ensures FirstOf([a, b, c][1..], 2) == Slice([b, c], false)
  {
    assert [a, b, c][..2] == [a, b];
    assert [a, b, c][0..] == [a, b, c];
    assert [a, b, c][1..] == [b, c];
  }

  /** Where the database's order is not the service's, a campaign may come twice: here the service
      ranks the second row before the first, and pages are of two. */
  lemma OtherOrderRepeats(codec: Codec, port: Port, a: Row, b: Row, c: Row)
    requires Serves(port, [a, b, c], 2) && AllReadBack(codec, [a, b, c])
    requires codec.encode(PositionOf(a)).Some?
    requires !RowLe(a, b) && RowLe(b, c)
    ensures Follow(Service(codec, port), None, 4) == Success([b, a] + [b, c])
  {
    var rows := [a, b, c];
    var next := codec.encode(PositionOf(a));
    assert rows[0] == a;
    ServedFrom(codec, port, rows, 2, None, 0);
    ServedFrom(codec, port, rows, 2, next, 1);
    FirstPairs(a, b, c);
    PairSorted(codec, a, b);
    PairSorted(codec, b, c);
    TwoPages(Service(codec, port), Page([b, a], next), Page([b, c], None));
  }

  lemma TwoPages(list: Listing, first: Page, second: Page)
    requires list(None) == Success(first) && first.nextCursor.Some?
    requires list(first.nextCursor) == Success(second) && second.nextCursor.None?
    ensures Follow(list, None, 4) == Success(first.items + second.items)
  {
    FollowOne(list, first.nextCursor, 3, second);
    FollowOne(list, None, 4, first);
  }

  lemma TwoRowsSorted(a: Row, b: Row)
    ensures SortRows([a, b]) == if RowLe(a, b) then [a, b] else [b, a]
  {
    assert [a, b][1..] == [b];
    assert SortRows([b]) == [b];
  }

  // ----- the export loop

  /** What the loop collects from any port at all, page after page. The position it asks from next
      is a checked one, which refuses an id outside the cursor's alphabet or length. */
  function Collected(read: Port, projections: seq<Row>, cursor: Option<Position>): Result<seq<Row>, ReadError>
    decreases MAX_RECORDS + 1 - |projections|
  {
    match read(cursor)
    case Failure(e) => Failure(e)
    case Success(slice) =>
      var all := projections + slice.items;
      if |all| > MAX_RECORDS then Failure(TooManyRecords)
      else if !slice.hasMore || slice.items == [] then Success(all)
      else
        var last := slice.items[|slice.items| - 1];
        if !ValidId(last.id) then Failure(PositionUnfit) else Collected(read, all, Some(PositionOf(last)))
  }

  /** The export loop. It ends for every port, because each round but the last adds a row. */
  method ExportPages(read: Port) returns (r: Result<seq<Row>, ReadError>)
    ensures r == Collected(read, [], None)
    ensures r.Success? ==> |r.value| <= MAX_RECORDS
  {
    var projections: seq<Row> := [];
    var cursor: Option<Position> := None;
    while true
      invariant |projections| <= MAX_RECORDS
      invariant Collected(read, projections, cursor) == Collected(read, [], None)
      decreases MAX_RECORDS - |projections|
    {
      var page := read(cursor);
      if page.Failure? {
        return Failure(page.error);
      }
      projections := projections + page.value.items;
      if |projections| > MAX_RECORDS {
        return Failure(TooManyRecords);
      }
      if !page.value.hasMore || page.value.items == [] {
        return Success(projections);
      }
      var last := page.value.items[|page.value.items| - 1];
      if !ValidId(last.id) {
        return Failure(PositionUnfit);
      }
      cursor := Some(PositionOf(last));
    }
  }

  /** The row numbered `i` ends a page, with more rows behind it, and its id is fit for a position. */
  predicate EndsFit(rows: seq<Row>, i: nat)
    requires 0 < i < |rows|
  {
    i % 100 == 0 && i <= 10_000 ==> ValidId(rows[i - 1].id)
  }

  /** No page but the last, within the first ten thousand rows, ends in an id unfit for a position. */
  ghost predicate PageEndsFit(rows: seq<Row>, from: nat) {
    forall i :: from < i < |rows| ==> EndsFit(rows, i)
  }

  /** What the export comes to over a snapshot. */
  ghost function Exported(rows: seq<Row>, from: nat): Result<seq<Row>, ReadError> {
    if !PageEndsFit(rows, from) then Failure(PositionUnfit)
    else if |rows| <= 10_000 then Success(rows)
    else Failure(TooManyRecords)
  }

  lemma NoEndWithin(rows: seq<Row>, from: nat, to: nat)
    requires from % EXPORT_PAGE_SIZE == 0 && to == from + EXPORT_PAGE_SIZE
    ensures forall i :: from < i < to && i < |rows| ==> EndsFit(rows, i)
  {
    forall i | from < i < to && i < |rows|
      ensures EndsFit(rows, i)
    {
      assert i % EXPORT_PAGE_SIZE == i - from by {
        Remainder(i, from / EXPORT_PAGE_SIZE, i - from);
      }
    }
  }

  lemma Remainder(i: nat, q: nat, r: nat)
    requires i == q * EXPORT_PAGE_SIZE + r && r < EXPORT_PAGE_SIZE
    ensures i % EXPORT_PAGE_SIZE == r
  {
  }

  /** A page end decides, and otherwise the rest does. */
  lemma EndDecides(rows: seq<Row>, from: nat, to: nat)
    requires from % EXPORT_PAGE_SIZE == 0 && to == from + EXPORT_PAGE_SIZE
    requires to < |rows| && to <= MAX_RECORDS
    ensures to % EXPORT_PAGE_SIZE == 0
    ensures Exported(rows, from) == if ValidId(rows[to - 1].id) then Exported(rows, to) else Failure(PositionUnfit)
  {
    NoEndWithin(rows, from, to);
    Remainder(to, from / EXPORT_PAGE_SIZE + 1, 0);
    assert EndsFit(rows, to) <==> ValidId(rows[to - 1].id);
  }

  lemma LastPageFits(rows: seq<Row>, from: nat)
    requires from % EXPORT_PAGE_SIZE == 0
    requires |rows| <= from + EXPORT_PAGE_SIZE || from == MAX_RECORDS
    ensures PageEndsFit(rows, from)
  {
    NoEndWithin(rows, from, from + EXPORT_PAGE_SIZE);
  }

  lemma {:induction false} ExportFrom(port: Port, rows: seq<Row>, from: nat, cursor: Option<Position>)
    requires Serves(port, rows, EXPORT_PAGE_SIZE)
    requires from <= |rows| && from <= MAX_RECORDS && from % EXPORT_PAGE_SIZE == 0
    requires if from == 0 then cursor.None? else cursor == Some(PositionOf(rows[from - 1]))
    ensures Collected(port, rows[..from], cursor) == Exported(rows, from)
    decreases |rows| - from
  {
    assert rows[0..] == rows;
    assert from > 0 ==> Names(PositionOf(rows[from - 1]), rows[from - 1]);
    var slice := FirstOf(rows[from..], EXPORT_PAGE_SIZE);
    assert port(cursor) == Success(slice);
    if slice.hasMore {
      var to := from + EXPORT_PAGE_SIZE;
      assert rows[..from] + slice.items == rows[..to];
      if to <= MAX_RECORDS {
        assert slice.items[|slice.items| - 1] == rows[to - 1];
        EndDecides(rows, from, to);
        if ValidId(rows[to - 1].id) {
          ExportFrom(port, rows, to, Some(PositionOf(rows[to - 1])));
        }
      } else {
        WholePages(from);
        LastPageFits(rows, from);
      }
    } else {
      assert rows[..from] + slice.items == rows;
      LastPageFits(rows, from);
    }
  }

  /** Ten thousand is a whole number of pages. */
  lemma WholePages(from: nat)
    requires from % EXPORT_PAGE_SIZE == 0 && from <= MAX_RECORDS < from + EXPORT_PAGE_SIZE
    ensures from == MAX_RECORDS
  {
  }

  /** Over any fixed snapshot the export collects exactly its rows, in the query's order, if and only
      if there are at most ten thousand and no page but the last ends in an id unfit for a position.
      Such an id among the first ten thousand rows is met before the count is exceeded. */
  lemma ExportIsLossless(before: IdOrder, rows: seq<Row>, asOf: int)
    requires Asymmetric(before) && Listed(before, rows) && SeenBy(rows, asOf)
    ensures Collected(DatabasePort(before, rows, 100, asOf), [], None)
         == if exists i :: 0 < i < |rows| && !EndsFit(rows, i) then Failure(PositionUnfit)
            else if |rows| <= 10_000 then Success(rows)
            else Failure(TooManyRecords)
  {
    AdapterServes(before, rows, EXPORT_PAGE_SIZE, asOf);
    ExportFrom(DatabasePort(before, rows, EXPORT_PAGE_SIZE, asOf), rows, 0, None);
    assert rows[..0] == [];
  }
}
