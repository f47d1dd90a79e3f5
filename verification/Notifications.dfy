/** The notification feed: an append-only log read page by page while it grows. */
module Notifications {
  import opened Wrappers
  import NotificationCursor

  const MAX_PAGE_SIZE := 100

  datatype Item = Item(sequence: nat, id: string)

  datatype FeedError = BadLimit | BadCursor | CursorOverflow

  datatype Slice = Slice(items: seq<Item>, hasMore: bool)

  datatype Page = Page(items: seq<Item>, nextCursor: Option<string>)

  // ----- the read adapter

  function Beyond(feed: seq<Item>, n: int): seq<Item> {
    if feed == [] then []
    else if feed[0].sequence > n then [feed[0]] + Beyond(feed[1..], n)
    else Beyond(feed[1..], n)
  }

  function FirstOf(items: seq<Item>, limit: nat): Slice {
    if limit < |items| then Slice(items[..limit], true) else Slice(items, false)
  }

  /** One read of the feed as it stands. */
  function ReadFeed(feed: seq<Item>, after: Option<nat>, limit: int): Result<Slice, FeedError> {
    if limit < 1 || limit > MAX_PAGE_SIZE then Failure(BadLimit)
    else Success(FirstOf(if after.None? then feed else Beyond(feed, after.value), limit))
  }

  // ----- the service

  datatype Codec = Codec(encode: nat -> string, decode: string -> NotificationCursor.Decoded)

  function CodecOf(r: NotificationCursor.Readers): Codec {
    Codec((n: nat) => NotificationCursor.EncodeSequence(n), (s: string) => NotificationCursor.DecodeValue(r, s))
  }

  /** A dictionary by event id: the first place an id was seen, the last item seen for it. */
  function Put(kept: seq<Item>, item: Item): seq<Item> {
    if kept == [] then [item]
    else if kept[0].id == item.id then [item] + kept[1..]
    else [kept[0]] + Put(kept[1..], item)
  }

  function Unique(items: seq<Item>): seq<Item> {
    if items == [] then [] else Put(Unique(items[..|items| - 1]), items[|items| - 1])
  }

  function InsertItem(x: Item, items: seq<Item>): seq<Item> {
    if items == [] then [x]
    else if x.sequence <= items[0].sequence then [x] + items
    else [items[0]] + InsertItem(x, items[1..])
  }

  function SortItems(items: seq<Item>): seq<Item> {
    if items == [] then [] else InsertItem(items[0], SortItems(items[1..]))
  }

  function Ordered(items: seq<Item>, after: Option<nat>): seq<Item> {
    var unique := Unique(items);
    SortItems(if after.None? then unique else Beyond(unique, after.value))
  }

  /** The cursor a page comes with: its last item when there is more; on an empty page, a cursor of
      the first version is exchanged for one of the second. */
  function NextCursor(codec: Codec, cursor: Option<string>, after: Option<nat>, slice: Slice): Option<string> {
    var ordered := Ordered(slice.items, after);
    if slice.hasMore && ordered != [] then Some(codec.encode(ordered[|ordered| - 1].sequence))
    else if ordered == [] && cursor.Some? && after.Some? && codec.encode(after.value) != cursor.value then
      Some(codec.encode(after.value))
    else None
  }

  function DecodeCursor(codec: Codec, cursor: Option<string>): Result<Option<nat>, FeedError> {
    match cursor
    case None => Success(None)
    case Some(text) =>
      match codec.decode(text)
      case Accepted(n) => Success(Some(n))
      case Rejected => Failure(BadCursor)
      case Overflowed => Failure(CursorOverflow)
  }

  function ListNotifications(codec: Codec, feed: seq<Item>, cursor: Option<string>, limit: int): Result<Page, FeedError> {
    match DecodeCursor(codec, cursor)
    case Failure(e) => Failure(e)
    case Success(after) =>
      match ReadFeed(feed, after, limit)
      case Failure(e) => Failure(e)
      case Success(slice) => Success(Page(Ordered(slice.items, after), NextCursor(codec, cursor, after, slice)))
  }

  // ----- feeds

  ghost predicate Ascending(items: seq<Item>) {
    forall i, j :: 0 <= i < j < |items| ==> items[i].sequence < items[j].sequence
  }

  ghost predicate DistinctIds(items: seq<Item>) {
    forall i, j :: 0 <= i < j < |items| ==> items[i].id != items[j].id
  }

  /** Sequences ascend from one; ids are the events' own. */
  ghost predicate WellFed(feed: seq<Item>) {
    Ascending(feed) && DistinctIds(feed)
    && forall i :: 0 <= i < |feed| ==> 1 <= feed[i].sequence <= NotificationCursor.MAX_SEQUENCE
  }

  /** The index of the first item beyond a sequence. */
  ghost predicate Cut(feed: seq<Item>, n: int, at: nat) {
    && at <= |feed|
    && (forall i :: 0 <= i < at ==> feed[i].sequence <= n)
    && (forall i :: at <= i < |feed| ==> feed[i].sequence > n)
  }

  lemma {:induction false} CutExists(feed: seq<Item>, n: int) returns (at: nat)
    requires Ascending(feed)
    ensures Cut(feed, n, at)
  {
    if feed == [] || feed[0].sequence > n {
      at := 0;
    } else {
      at := CutExists(feed[1..], n);
      assert forall i :: 1 <= i < |feed| ==> feed[i] == feed[1..][i - 1];
      at := at + 1;
    }
  }

  lemma {:induction false} BeyondCut(feed: seq<Item>, n: int, at: nat)
    requires Cut(feed, n, at)
    ensures Beyond(feed, n) == feed[at..]
  {
    if feed != [] {
      BeyondCut(feed[1..], n, if at == 0 then 0 else at - 1);
    }
  }

  // ----- an honest slice is passed on as it is

  lemma {:induction false} PutNew(kept: seq<Item>, item: Item)
    requires forall i :: 0 <= i < |kept| ==> kept[i].id != item.id
    ensures Put(kept, item) == kept + [item]
  {
    if kept != [] {
      PutNew(kept[1..], item);
    }
  }

  lemma {:induction false} UniqueStays(items: seq<Item>)
    requires DistinctIds(items)
    ensures Unique(items) == items
  {
    if items != [] {
      UniqueStays(items[..|items| - 1]);
      PutNew(items[..|items| - 1], items[|items| - 1]);
    }
  }

  lemma {:induction false} SortStays(items: seq<Item>)
    requires Ascending(items)
    ensures SortItems(items) == items
  {
    if items != [] {
      SortStays(items[1..]);
    }
  }

  lemma HonestSlice(items: seq<Item>, after: Option<nat>)
    requires Ascending(items) && DistinctIds(items)
    requires after.Some? ==> forall i :: 0 <= i < |items| ==> items[i].sequence > after.value
    ensures Ordered(items, after) == items
  {
    UniqueStays(items);
    SortStays(items);
    if after.Some? {
      BeyondCut(items, after.value, 0);
    }
  }

  // ----- whatever the port returns, a page is clean

  function Ids(items: seq<Item>): set<string> {
    set i | 0 <= i < |items| :: items[i].id
  }

  lemma IdsOf(x: Item, rest: seq<Item>)
    ensures Ids([x] + rest) == {x.id} + Ids(rest)
    ensures DistinctIds([x] + rest) <==> DistinctIds(rest) && x.id !in Ids(rest)
  {
    var all := [x] + rest;
    assert all[0] == x;
    assert forall i :: 0 <= i < |rest| ==> all[i + 1] == rest[i];
    assert forall i :: 1 <= i < |all| ==> all[i] == rest[i - 1];
  }

  lemma {:induction false} PutKeepsIds(kept: seq<Item>, item: Item)
    requires DistinctIds(kept)
    ensures DistinctIds(Put(kept, item)) && Ids(Put(kept, item)) == Ids(kept) + {item.id}
  {
    if kept == [] {
      IdsOf(item, []);
    } else {
      assert kept == [kept[0]] + kept[1..];
      IdsOf(kept[0], kept[1..]);
      if kept[0].id == item.id {
        IdsOf(item, kept[1..]);
      } else {
        PutKeepsIds(kept[1..], item);
        IdsOf(kept[0], Put(kept[1..], item));
      }
    }
  }

  lemma {:induction false} UniqueIds(items: seq<Item>)
    ensures DistinctIds(Unique(items)) && Ids(Unique(items)) == Ids(items)
  {
    if items != [] {
      var init, last := items[..|items| - 1], items[|items| - 1];
      UniqueIds(init);
      PutKeepsIds(Unique(init), last);
      assert forall i :: 0 <= i < |items| ==> items[i] == if i < |init| then init[i] else last;
      assert Ids(items) == Ids(init) + {last.id};
    }
  }

  lemma {:induction false} BeyondKeepsIds(items: seq<Item>, n: int)
    requires DistinctIds(items)
    ensures DistinctIds(Beyond(items, n)) && Ids(Beyond(items, n)) <= Ids(items)
    ensures forall i :: 0 <= i < |Beyond(items, n)| ==> Beyond(items, n)[i].sequence > n
  {
    if items != [] {
      assert items == [items[0]] + items[1..];
      IdsOf(items[0], items[1..]);
      BeyondKeepsIds(items[1..], n);
      IdsOf(items[0], Beyond(items[1..], n));
    }
  }

  ghost predicate NeverFalls(items: seq<Item>) {
    forall i, j :: 0 <= i < j < |items| ==> items[i].sequence <= items[j].sequence
  }

  lemma {:induction false} InsertKeeps(x: Item, items: seq<Item>, n: int)
    requires DistinctIds(items) && x.id !in Ids(items) && NeverFalls(items)
    requires x.sequence > n && forall i :: 0 <= i < |items| ==> items[i].sequence > n
    ensures var r := InsertItem(x, items);
            && DistinctIds(r) && Ids(r) == Ids(items) + {x.id}
            && NeverFalls(r)
            && (forall i :: 0 <= i < |r| ==> r[i].sequence > n)
  {
    if items == [] || x.sequence <= items[0].sequence {
      IdsOf(x, items);
    } else {
      assert items == [items[0]] + items[1..];
      IdsOf(items[0], items[1..]);
      InsertKeeps(x, items[1..], items[0].sequence - 1);
      InsertKeeps(x, items[1..], n);
      IdsOf(items[0], InsertItem(x, items[1..]));
    }
  }

  lemma {:induction false} SortKeeps(items: seq<Item>, n: int)
    requires DistinctIds(items)
    requires forall i :: 0 <= i < |items| ==> items[i].sequence > n
    ensures var r := SortItems(items);
            && DistinctIds(r) && Ids(r) == Ids(items)
            && NeverFalls(r)
            && (forall i :: 0 <= i < |r| ==> r[i].sequence > n)
  {
    if items != [] {
      assert items == [items[0]] + items[1..];
      IdsOf(items[0], items[1..]);
      SortKeeps(items[1..], n);
      InsertKeeps(items[0], SortItems(items[1..]), n);
    }
  }

  /** Whatever the port returns, out of order, repeated, or already read: a page names no event
      twice, ascends, and stays beyond its cursor, so the next cursor, its last item, moves forward. */
  lemma AnySliceGivesCleanPage(after: Option<nat>, slice: Slice)
    ensures var items := Ordered(slice.items, after);
            && DistinctIds(items) && NeverFalls(items) && Ids(items) <= Ids(slice.items)
            && (after.Some? ==> forall i :: 0 <= i < |items| ==> items[i].sequence > after.value)
  {
    var unique := Unique(slice.items);
    UniqueIds(slice.items);
    var kept := if after.None? then unique else Beyond(unique, after.value);
    if after.Some? {
      BeyondKeepsIds(unique, after.value);
    }
    SortKeeps(kept, if after.None? then -1 else after.value);
  }

  /** The last that the slice says of an event. */
  predicate LastOf(items: seq<Item>, x: Item) {
    exists k :: 0 <= k < |items| && items[k] == x && forall j :: k < j < |items| ==> items[j].id != x.id
  }

  lemma {:induction false} PutHolds(kept: seq<Item>, item: Item, x: Item)
    requires DistinctIds(kept)
    ensures x in Put(kept, item) <==> x == item || (x in kept && x.id != item.id)
  {
    if kept != [] {
      assert kept == [kept[0]] + kept[1..];
      if kept[0].id != item.id {
        PutHolds(kept[1..], item, x);
      } else {
        IdsOf(kept[0], kept[1..]);
        OthersDiffer(kept, x);
      }
    }
  }

  lemma OthersDiffer(kept: seq<Item>, x: Item)
    requires kept != [] && DistinctIds(kept)
    ensures x in kept[1..] ==> x.id != kept[0].id
  {
    if x in kept[1..] {
      var k :| 0 <= k < |kept| - 1 && kept[1..][k] == x;
      assert kept[k + 1] == x;
    }
  }

  lemma LastAfter(init: seq<Item>, last: Item, x: Item)
    ensures LastOf(init + [last], x) <==> x == last || (LastOf(init, x) && x.id != last.id)
  {
    var items := init + [last];
    if LastOf(items, x) && x != last {
      var k :| 0 <= k < |items| && items[k] == x && forall j :: k < j < |items| ==> items[j].id != x.id;
      assert k < |init| && init[k] == x && items[|init|] == last;
      assert forall j :: k < j < |init| ==> init[j] == items[j];
    }
    if x == last {
      assert items[|init|] == x;
    }
    if LastOf(init, x) && x.id != last.id {
      var k :| 0 <= k < |init| && init[k] == x && forall j :: k < j < |init| ==> init[j].id != x.id;
      assert items[k] == x;
    }
  }

  lemma {:induction false} UniqueHoldsLast(items: seq<Item>, x: Item)
    ensures x in Unique(items) <==> LastOf(items, x)
  {
    if items != [] {
      var init, last := items[..|items| - 1], items[|items| - 1];
      assert items == init + [last];
      UniqueHoldsLast(init, x);
      UniqueIds(init);
      PutHolds(Unique(init), last, x);
      LastAfter(init, last, x);
    }
  }

  lemma {:induction false} BeyondHolds(items: seq<Item>, n: int, x: Item)
    ensures x in Beyond(items, n) <==> x in items && x.sequence > n
  {
    if items != [] {
      assert items == [items[0]] + items[1..];
      BeyondHolds(items[1..], n, x);
    }
  }

  lemma {:induction false} InsertHolds(y: Item, items: seq<Item>, x: Item)
    ensures x in InsertItem(y, items) <==> x == y || x in items
  {
    if items != [] {
      assert items == [items[0]] + items[1..];
      InsertHolds(y, items[1..], x);
    }
  }

  lemma {:induction false} SortHolds(items: seq<Item>, x: Item)
    ensures x in SortItems(items) <==> x in items
  {
    if items != [] {
      assert items == [items[0]] + items[1..];
      SortHolds(items[1..], x);
      InsertHolds(items[0], SortItems(items[1..]), x);
    }
  }

  /** What a page holds: of each event the last that the slice says of it, where that is beyond the
      cursor. */
  lemma PageHoldsExactly(after: Option<nat>, slice: Slice, x: Item)
    ensures x in Ordered(slice.items, after) <==>
              && (exists k :: 0 <= k < |slice.items| && slice.items[k] == x
                              && forall j :: k < j < |slice.items| ==> slice.items[j].id != x.id)
              && (after.Some? ==> x.sequence > after.value)
  {
    var unique := Unique(slice.items);
    UniqueHoldsLast(slice.items, x);
    if after.None? {
      SortHolds(unique, x);
    } else {
      BeyondHolds(unique, after.value, x);
      SortHolds(Beyond(unique, after.value), x);
    }
  }

  // ----- one page of a feed

  /** Where a cursor stands: before everything, or behind a sequence. */
  function Position(after: Option<nat>): int {
    if after.None? then 0 else after.value
  }

  ghost predicate ReadsBack(codec: Codec) {
    forall n: nat :: NotificationCursor.InFeed(n) ==> codec.decode(codec.encode(n)) == NotificationCursor.Accepted(n)
  }

  lemma StartIsZero(feed: seq<Item>)
    requires WellFed(feed)
    ensures Beyond(feed, 0) == feed
  {
    BeyondCut(feed, 0, 0);
  }

  lemma FoundFrom(feed: seq<Item>, after: Option<nat>, at: nat)
    requires WellFed(feed) && Cut(feed, Position(after), at)
    ensures (if after.None? then feed else Beyond(feed, after.value)) == feed[at..]
  {
    BeyondCut(feed, Position(after), at);
    StartIsZero(feed);
  }

  lemma SliceOrdered(feed: seq<Item>, after: Option<nat>, at: nat, limit: nat)
    requires WellFed(feed) && Cut(feed, Position(after), at)
    ensures Ordered(FirstOf(feed[at..], limit).items, after) == FirstOf(feed[at..], limit).items
  {
    var items := FirstOf(feed[at..], limit).items;
    assert forall i :: 0 <= i < |items| ==> items[i] == feed[at + i];
    HonestSlice(items, after);
  }

  lemma PageItems(codec: Codec, feed: seq<Item>, cursor: Option<string>, after: Option<nat>, limit: int, at: nat)
    requires WellFed(feed) && 1 <= limit <= MAX_PAGE_SIZE
    requires DecodeCursor(codec, cursor) == Success(after) && Cut(feed, Position(after), at)
    ensures var items := FirstOf(feed[at..], limit).items;
            && Ordered(items, after) == items
            && ReadFeed(feed, after, limit) == Success(FirstOf(feed[at..], limit))
  {
    FoundFrom(feed, after, at);
    SliceOrdered(feed, after, at, limit);
  }

  /** A page with more behind it ends where its cursor begins; one without has everything. */
  lemma OnePage(codec: Codec, feed: seq<Item>, cursor: Option<string>, after: Option<nat>, limit: int, at: nat)
    requires WellFed(feed) && 1 <= limit <= MAX_PAGE_SIZE
    requires DecodeCursor(codec, cursor) == Success(after) && Cut(feed, Position(after), at)
    ensures var page := ListNotifications(codec, feed, cursor, limit);
            && (at + limit < |feed| ==>
                  page == Success(Page(feed[at..at + limit], Some(codec.encode(feed[at + limit - 1].sequence)))))
            && (at < |feed| <= at + limit ==> page == Success(Page(feed[at..], None)))
            && (at == |feed| ==>
                  page == Success(Page([],
                    if cursor.Some? && after.Some? && codec.encode(after.value) != cursor.value
                    then Some(codec.encode(after.value)) else None)))
  {
    PageItems(codec, feed, cursor, after, limit, at);
    if at + limit < |feed| {
      assert FirstOf(feed[at..], limit).items == feed[at..at + limit];
      assert feed[at..at + limit][limit - 1] == feed[at + limit - 1];
    }
  }

  /** What is refused: a text that is no cursor, for that or for its overflow; and otherwise a limit outside
      1 to 100. Everything else is answered. */
  lemma FeedRefusesExactly(r: NotificationCursor.Readers, feed: seq<Item>, cursor: Option<string>, limit: int)
    ensures var page := ListNotifications(CodecOf(r), feed, cursor, limit);
            && (page == Failure(BadCursor) <==>
                  cursor.Some? && NotificationCursor.DecodeValue(r, cursor.value) == NotificationCursor.Rejected)
            && (page == Failure(CursorOverflow) <==>
                  cursor.Some? && NotificationCursor.DecodeValue(r, cursor.value) == NotificationCursor.Overflowed)
            && (page == Failure(BadLimit) <==>
                  && (cursor.None? || NotificationCursor.DecodeValue(r, cursor.value).Accepted?)
                  && (limit < 1 || limit > 100))
  {
  }

  // ----- a client that follows the cursors while the feed grows

  datatype Followed = Done(items: seq<Item>, last: nat) | Failed(error: FeedError) | Unfinished

  /** The endpoint at each moment of its use. */
  type Listing = (nat, Option<string>) -> Result<Page, FeedError>

  function Service(codec: Codec, feeds: nat -> seq<Item>, limit: int): Listing {
    (moment: nat, cursor: Option<string>) => ListNotifications(codec, feeds(moment), cursor, limit)
  }

  /** What the client has when it stops, and the moment of its last read. */
  function Follow(list: Listing, moment: nat, cursor: Option<string>, pages: nat): Followed
    decreases pages
  {
    if pages == 0 then Unfinished
    else
      match list(moment, cursor)
      case Failure(e) => Failed(e)
      case Success(page) =>
        if page.nextCursor.None? then Done(page.items, moment)
        else
          match Follow(list, moment + 1, page.nextCursor, pages - 1)
          case Done(rest, last) => Done(page.items + rest, last)
          case Failed(e) => Failed(e)
          case Unfinished => Unfinished
  }

  lemma FollowOne(list: Listing, moment: nat, cursor: Option<string>, pages: nat, page: Page)
    requires pages > 0 && list(moment, cursor) == Success(page)
    ensures page.nextCursor.None? ==> Follow(list, moment, cursor, pages) == Done(page.items, moment)
    ensures page.nextCursor.Some? ==>
              var rest := Follow(list, moment + 1, page.nextCursor, pages - 1);
              Follow(list, moment, cursor, pages)
              == if rest.Done? then Done(page.items + rest.items, rest.last) else rest
  {
  }

  /** Items are only ever appended. */
  ghost predicate Growing(feeds: nat -> seq<Item>) {
    && (forall k: nat :: WellFed(feeds(k)))
    && (forall k: nat, l: nat :: k <= l ==> feeds(k) <= feeds(l))
  }

  /** What a client at a position is owed: at its last read, everything beyond the position, once. */
  ghost predicate Owed(feeds: nat -> seq<Item>, n: int, moment: nat, f: Followed) {
    !f.Failed? && (f.Done? ==> f.last >= moment && f.items == Beyond(feeds(f.last), n))
  }

  lemma CutExtends(feed: seq<Item>, later: seq<Item>, n: int, at: nat)
    requires Ascending(later) && feed <= later && Cut(feed, n, at) && at < |feed|
    ensures Cut(later, n, at)
  {
    assert later[at] == feed[at];
    assert forall i :: 0 <= i < at ==> later[i] == feed[i];
  }

  lemma CutBehind(feed: seq<Item>, i: nat)
    requires Ascending(feed) && i < |feed|
    ensures Cut(feed, feed[i].sequence, i + 1)
  {
  }

  lemma CutMoves(feed: seq<Item>, later: seq<Item>, n: int, at: nat, limit: nat)
    requires Ascending(later) && feed <= later
    requires Cut(feed, n, at) && 0 < limit && at + limit <= |feed|
    ensures Beyond(later, n) == feed[at..at + limit] + Beyond(later, feed[at + limit - 1].sequence)
  {
    CutExtends(feed, later, n, at);
    BeyondCut(later, n, at);
    BeyondItem(later, at + limit - 1);
    assert later[at + limit - 1] == feed[at + limit - 1];
    PrefixSplits(feed, later, at, limit);
  }

  /** Beyond an item's sequence lie the items after it. */
  lemma BeyondItem(feed: seq<Item>, i: nat)
    requires Ascending(feed) && i < |feed|
    ensures Beyond(feed, feed[i].sequence) == feed[i + 1..]
  {
    CutBehind(feed, i);
    BeyondCut(feed, feed[i].sequence, i + 1);
  }

  lemma PrefixSplits(feed: seq<Item>, later: seq<Item>, at: nat, limit: nat)
    requires feed <= later && at + limit <= |feed|
    ensures later[at..] == feed[at..at + limit] + later[at + limit..]
  {
  }

  // ----- following

  /** The cursor stands at this position. */
  ghost predicate At(codec: Codec, cursor: Option<string>, n: nat) {
    NotificationCursor.InFeed(n) && (cursor.None? ==> n == 0) && DecodeCursor(codec, cursor) == Success(if cursor.None? then None else Some(n))
  }

  /** A page read somewhere: what is owed is the page's items and what is owed at its cursor. */
  ghost predicate GoodPage(codec: Codec, feeds: nat -> seq<Item>, moment: nat, n: nat, page: Result<Page, FeedError>) {
    && page.Success?
    && (page.value.nextCursor.None? ==> page.value.items == Beyond(feeds(moment), n))
    && (page.value.nextCursor.Some? ==> LeadsOn(codec, feeds, moment, n, page.value))
  }

  ghost predicate LeadsOn(codec: Codec, feeds: nat -> seq<Item>, moment: nat, n: nat, page: Page) {
    exists m: nat :: At(codec, page.nextCursor, m)
      && forall k: nat :: k > moment ==> Beyond(feeds(k), n) == page.items + Beyond(feeds(k), m)
  }

  lemma EveryPageIsGood(codec: Codec, feeds: nat -> seq<Item>, limit: int, moment: nat, cursor: Option<string>, n: nat)
    requires ReadsBack(codec) && Growing(feeds) && 1 <= limit <= MAX_PAGE_SIZE && At(codec, cursor, n)
    ensures GoodPage(codec, feeds, moment, n, ListNotifications(codec, feeds(moment), cursor, limit))
  {
    var feed := feeds(moment);
    var after := if cursor.None? then None else Some(n);
    var at := CutExists(feed, n);
    OnePage(codec, feed, cursor, after, limit, at);
    BeyondCut(feed, n, at);
    if at + limit < |feed| {
      FullPageLeadsOn(codec, feeds, limit, moment, n, at);
    } else if at == |feed| {
      EmptyPageLeadsOn(codec, feeds, moment, n);
    }
  }

  lemma FullPageLeadsOn(codec: Codec, feeds: nat -> seq<Item>, limit: nat, moment: nat, n: nat, at: nat)
    requires ReadsBack(codec) && Growing(feeds) && 0 < limit
    requires Cut(feeds(moment), n, at) && at + limit < |feeds(moment)|
    ensures var feed := feeds(moment);
            LeadsOn(codec, feeds, moment, n, Page(feed[at..at + limit], Some(codec.encode(feed[at + limit - 1].sequence))))
  {
    var feed := feeds(moment);
    var m := feed[at + limit - 1].sequence;
    assert At(codec, Some(codec.encode(m)), m);
    forall k: nat | k > moment
      ensures Beyond(feeds(k), n) == feed[at..at + limit] + Beyond(feeds(k), m)
    {
      CutMoves(feed, feeds(k), n, at, limit);
    }
  }

  lemma EmptyPageLeadsOn(codec: Codec, feeds: nat -> seq<Item>, moment: nat, n: nat)
    requires ReadsBack(codec) && NotificationCursor.InFeed(n)
    ensures LeadsOn(codec, feeds, moment, n, Page([], Some(codec.encode(n))))
  {
    assert At(codec, Some(codec.encode(n)), n);
    assert forall k: nat :: k > moment ==> Beyond(feeds(k), n) == [] + Beyond(feeds(k), n);
  }

  ghost predicate AllGood(codec: Codec, feeds: nat -> seq<Item>, list: Listing) {
    forall moment: nat, cursor, n: nat {:trigger At(codec, cursor, n), list(moment, cursor)} ::
      At(codec, cursor, n) ==> GoodPage(codec, feeds, moment, n, list(moment, cursor))
  }

  lemma {:induction false} FollowOwed(
    codec: Codec, feeds: nat -> seq<Item>, list: Listing, moment: nat, cursor: Option<string>, n: nat, pages: nat)
    requires AllGood(codec, feeds, list) && At(codec, cursor, n)
    ensures Owed(feeds, n, moment, Follow(list, moment, cursor, pages))
    decreases pages
  {
    if pages > 0 {
      var page := list(moment, cursor).value;
      FollowOne(list, moment, cursor, pages, page);
      if page.nextCursor.Some? {
        var m: nat :| At(codec, page.nextCursor, m)
          && forall k: nat :: k > moment ==> Beyond(feeds(k), n) == page.items + Beyond(feeds(k), m);
        FollowOwed(codec, feeds, list, moment + 1, page.nextCursor, m, pages - 1);
      }
    }
  }

  /** The feed is lossless while it grows: however events are appended between the reads, a client
      that follows the cursors and stops has received, in order and once each, exactly the events
      beyond its starting position that the feed held at its last read; a cursor of the first version
      starts from the beginning. */
  lemma FeedIsLossless(
    r: NotificationCursor.Readers, feeds: nat -> seq<Item>, limit: int, cursor: Option<string>, n: nat, pages: nat)
    requires NotificationCursor.Conforming(r) && Growing(feeds) && 1 <= limit <= MAX_PAGE_SIZE
    requires if cursor.None? then n == 0 else NotificationCursor.DecodeValue(r, cursor.value) == NotificationCursor.Accepted(n)
    ensures Owed(feeds, n, 0, Follow(Service(CodecOf(r), feeds, limit), 0, cursor, pages))
  {
    CodecReadsBack(r);
    AllPagesGood(CodecOf(r), feeds, limit);
    AcceptedInFeed(r, cursor, n);
    FollowOwed(CodecOf(r), feeds, Service(CodecOf(r), feeds, limit), 0, cursor, n, pages);
  }

  lemma AllPagesGood(codec: Codec, feeds: nat -> seq<Item>, limit: int)
    requires ReadsBack(codec) && Growing(feeds) && 1 <= limit <= MAX_PAGE_SIZE
    ensures AllGood(codec, feeds, Service(codec, feeds, limit))
  {
    forall moment: nat, cursor, n: nat | At(codec, cursor, n)
      ensures GoodPage(codec, feeds, moment, n, Service(codec, feeds, limit)(moment, cursor))
    {
      EveryPageIsGood(codec, feeds, limit, moment, cursor, n);
    }
  }

  lemma CodecReadsBack(r: NotificationCursor.Readers)
    requires NotificationCursor.Conforming(r)
    ensures ReadsBack(CodecOf(r))
  {
    forall n: nat | NotificationCursor.InFeed(n)
      ensures CodecOf(r).decode(CodecOf(r).encode(n)) == NotificationCursor.Accepted(n)
    {
      NotificationCursor.DecodeUndoesEncode(r, n);
    }
  }

  lemma AcceptedInFeed(r: NotificationCursor.Readers, cursor: Option<string>, n: nat)
    requires if cursor.None? then n == 0 else NotificationCursor.DecodeValue(r, cursor.value) == NotificationCursor.Accepted(n)
    ensures At(CodecOf(r), cursor, n)
  {
    if cursor.Some? {
      NotificationCursor.AcceptedIsWritten(r, cursor.value, n);
    }
  }

  // ----- a feed at rest

  /** Pages needed: each but the last moves past `limit` items, and one exchanges an old cursor. */
  function Needed(codec: Codec, feed: seq<Item>, cursor: Option<string>, n: nat): nat {
    |Beyond(feed, n)| + if cursor.Some? && codec.encode(n) != cursor.value then 2 else 1
  }

  ghost predicate Shrinks(codec: Codec, feed: seq<Item>, cursor: Option<string>, n: nat, page: Result<Page, FeedError>) {
    && page.Success?
    && (page.value.nextCursor.Some? ==>
          exists m: nat :: At(codec, page.value.nextCursor, m) && Needed(codec, feed, page.value.nextCursor, m) < Needed(codec, feed, cursor, n))
  }

  lemma PageShrinks(codec: Codec, feed: seq<Item>, cursor: Option<string>, n: nat, limit: int)
    requires ReadsBack(codec) && WellFed(feed) && 1 <= limit <= MAX_PAGE_SIZE && At(codec, cursor, n)
    ensures Shrinks(codec, feed, cursor, n, ListNotifications(codec, feed, cursor, limit))
  {
    var at := CutExists(feed, n);
    OnePage(codec, feed, cursor, if cursor.None? then None else Some(n), limit, at);
    BeyondCut(feed, n, at);
    if at + limit < |feed| {
      var m := feed[at + limit - 1].sequence;
      CutBehind(feed, at + limit - 1);
      BeyondCut(feed, m, at + limit);
      assert At(codec, Some(codec.encode(m)), m);
    } else if at == |feed| {
      assert At(codec, Some(codec.encode(n)), n);
    }
  }

  lemma {:induction false} FollowFinishes(
    codec: Codec, feed: seq<Item>, list: Listing, moment: nat, cursor: Option<string>, n: nat, pages: nat)
    requires forall k: nat, c, m: nat {:trigger At(codec, c, m), list(k, c)} :: At(codec, c, m) ==> Shrinks(codec, feed, c, m, list(k, c))
    requires At(codec, cursor, n) && pages >= Needed(codec, feed, cursor, n)
    ensures Follow(list, moment, cursor, pages).Done?
    decreases pages
  {
    var page := list(moment, cursor).value;
    FollowOne(list, moment, cursor, pages, page);
    if page.nextCursor.Some? {
      var m: nat :| At(codec, page.nextCursor, m) && Needed(codec, feed, page.nextCursor, m) < Needed(codec, feed, cursor, n);
      FollowFinishes(codec, feed, list, moment + 1, page.nextCursor, m, pages - 1);
    }
  }

  /** On a feed at rest a client that follows the cursors until there is none does stop, an exhausted
      feed and a first-version cursor included, with exactly the events beyond its position. */
  lemma FeedAtRestFinishes(
    r: NotificationCursor.Readers, feed: seq<Item>, limit: int, cursor: Option<string>, n: nat)
    requires NotificationCursor.Conforming(r) && WellFed(feed) && 1 <= limit <= MAX_PAGE_SIZE
    requires if cursor.None? then n == 0 else NotificationCursor.DecodeValue(r, cursor.value) == NotificationCursor.Accepted(n)
    ensures var f := Follow(Service(CodecOf(r), (k: nat) => feed, limit), 0, cursor, |feed| + 2);
            f.Done? && f.items == Beyond(feed, n)
  {
    CodecReadsBack(r);
    AcceptedInFeed(r, cursor, n);
    RestFinishes(CodecOf(r), feed, limit, cursor, n);
    FeedIsLossless(r, (k: nat) => feed, limit, cursor, n, |feed| + 2);
  }

  lemma RestFinishes(codec: Codec, feed: seq<Item>, limit: int, cursor: Option<string>, n: nat)
    requires ReadsBack(codec) && WellFed(feed) && 1 <= limit <= MAX_PAGE_SIZE && At(codec, cursor, n)
    ensures Follow(Service(codec, (k: nat) => feed, limit), 0, cursor, |feed| + 2).Done?
  {
    var list := Service(codec, (k: nat) => feed, limit);
    forall k: nat, c, m: nat | At(codec, c, m)
      ensures Shrinks(codec, feed, c, m, list(k, c))
    {
      PageShrinks(codec, feed, c, m, limit);
    }
    var at := CutExists(feed, n);
    BeyondCut(feed, n, at);
    FollowFinishes(codec, feed, list, 0, cursor, n, |feed| + 2);
  }
}
