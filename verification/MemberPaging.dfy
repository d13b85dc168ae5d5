/**
 Paging through the members of a room, users first and then bots, while people join and leave
 between the pages.
 */
module MemberPaging {
  import opened Prelude
  import opened TextOrder

  type Id = string

  datatype Item = User(id: Id) | Bot(id: Id)

  /** The members of a room at one moment: its users and its active bots. */
  datatype Snapshot = Snapshot(users: set<Id>, bots: set<Id>)

  /** The decoded cursor of a request. */
  datatype Cursor = Cursor(lastUser: Option<Id>, lastBot: Option<Id>, segment: Option<string>)

  datatype Page = Page(members: seq<Item>, next: Option<Cursor>)

  datatype Error = NotAMember

  // ---- The request as one query over the merged listing ----

  predicate Holds(s: Snapshot, item: Item) {
    match item
    case User(u) => u in s.users
    case Bot(b) => b in s.bots
  }

  /** Users before bots, each in id order. */
  predicate Ahead(a: Item, b: Item) {
    (a.User? && b.Bot?) || (a.User? == b.User? && Less(a.id, b.id))
  }

  ghost predicate Rising(items: seq<Item>) {
    forall i, j :: 0 <= i < j < |items| ==> Ahead(items[i], items[j])
  }

  predicate InBotSegment(cursor: Option<Cursor>) {
    cursor.Some?
    && (cursor.value.segment == Some("bots") || (cursor.value.segment.None? && cursor.value.lastBot.Some?))
  }

  function LastUser(cursor: Option<Cursor>): Option<Id> {
    if cursor.Some? then cursor.value.lastUser else None
  }

  /** The bot query looks at the last bot only inside the bot segment. */
  function LastBot(cursor: Option<Cursor>): Option<Id> {
    if InBotSegment(cursor) then cursor.value.lastBot else None
  }

  predicate After(last: Option<Id>, id: Id) {
    last.None? || Less(last.value, id)
  }

  /** The items a request with this cursor asks for. */
  predicate Wanted(cursor: Option<Cursor>, item: Item) {
    match item
    case User(u) => !InBotSegment(cursor) && After(LastUser(cursor), u)
    case Bot(b) => After(LastBot(cursor), b)
  }

  function CursorAt(item: Item): Cursor {
    match item
    case User(u) => Cursor(Some(u), None, Some("users"))
    case Bot(b) => Cursor(None, Some(b), Some("bots"))
  }

  /** A cursor names the last item of a page and the segment that it is of. */
  lemma CursorIs(id: Id)
    ensures CursorAt(User(id)) == Cursor(Some(id), None, Some("users"))
    ensures CursorAt(Bot(id)) == Cursor(None, Some(id), Some("bots"))
  {
  }

  /** The page is the first part of the wanted items; the cursor is given exactly when something is left. */
  ghost predicate IsPage(s: Snapshot, cursor: Option<Cursor>, limit: nat, page: Page) {
    && |page.members| <= limit
    && Rising(page.members)
    && (forall x :: x in page.members ==> Holds(s, x) && Wanted(cursor, x))
    && (page.next.None? ==> forall x :: Holds(s, x) && Wanted(cursor, x) ==> x in page.members)
    && (page.next.Some? ==>
          && |page.members| == limit > 0 && page.next == Some(CursorAt(Last(page.members)))
          && (exists x :: Holds(s, x) && Wanted(cursor, x) && x !in page.members)
          && forall x :: Holds(s, x) && Wanted(cursor, x) && x !in page.members ==> Ahead(Last(page.members), x))
  }

  // ---- The request as the server answers it ----

  /** The answer of SELECT id ... WHERE id > last ORDER BY id ASC LIMIT n. */
  ghost predicate Answers(ids: set<Id>, last: Option<Id>, n: nat, rows: seq<Id>) {
    && |rows| <= n
    && (forall i, j :: 0 <= i < j < |rows| ==> Less(rows[i], rows[j]))
    && (forall id :: id in rows ==> id in ids && After(last, id))
    && (forall id :: id in ids && After(last, id) && id !in rows ==>
          |rows| == n && (n > 0 ==> Less(Last(rows), id)))
  }

  /** userRows and botRows are the database's answers; the second is asked for the space that is left. */
  method ListMembers(s: Snapshot, requester: Id, cursor: Option<Cursor>, limit: nat, userRows: seq<Id>,
                     botRows: seq<Id>)
    returns (r: Result<Page, Error>)
    requires if InBotSegment(cursor) then userRows == [] else Answers(s.users, LastUser(cursor), limit + 1, userRows)
    requires if |userRows| < limit + 1 then Answers(s.bots, LastBot(cursor), limit + 1 - |userRows|, botRows)
             else botRows == []
    ensures r.Ok? <==> requester in s.users
    ensures r.Ok? && limit > 0 ==> IsPage(s, cursor, limit, r.value)
    ensures r.Ok? && limit == 0 ==> r.value == Page([], None)
  {
    if requester !in s.users {
      return Err(NotAMember);
    }
    var members: seq<Item> := [];
    if !InBotSegment(cursor) {
      for i := 0 to |userRows|
        invariant |members| == i && forall k :: 0 <= k < i ==> members[k] == User(userRows[k])
      {
        members := members + [User(userRows[i])];
      }
    }
    if |members| < limit + 1 {
      for i := 0 to |botRows|
        invariant |members| == |userRows| + i
        invariant forall k :: 0 <= k < |userRows| ==> members[k] == User(userRows[k])
        invariant forall k :: 0 <= k < i ==> members[|userRows| + k] == Bot(botRows[k])
      {
        members := members + [Bot(botRows[i])];
      }
    }
    var hasMore := |members| > limit;
    ghost var fetched := members;
    MergedIsPrefix(s, cursor, limit, userRows, botRows, fetched);
    if hasMore {
      members := members[..limit];
    }
    var page := Page(members, if hasMore && members != [] then Some(CursorAt(Last(members))) else None);
    if limit > 0 {
      CutIsPage(s, cursor, limit, fetched, page);
    }
    return Ok(page);
  }

  /** The rows fetched are the first limit + 1 of the wanted items. */
  ghost predicate IsFetched(s: Snapshot, cursor: Option<Cursor>, n: nat, fetched: seq<Item>) {
    && |fetched| <= n
    && Rising(fetched)
    && (forall x :: x in fetched ==> Holds(s, x) && Wanted(cursor, x))
    && (forall x :: Holds(s, x) && Wanted(cursor, x) && x !in fetched ==>
          |fetched| == n && (n > 0 ==> Ahead(Last(fetched), x)))
  }

  lemma MergedIsPrefix(
    s: Snapshot, cursor: Option<Cursor>, limit: nat, userRows: seq<Id>, botRows: seq<Id>, fetched: seq<Item>)
    requires if InBotSegment(cursor) then userRows == [] else Answers(s.users, LastUser(cursor), limit + 1, userRows)
    requires if |userRows| < limit + 1 then Answers(s.bots, LastBot(cursor), limit + 1 - |userRows|, botRows)
             else botRows == []
    requires |fetched| == |userRows| + |botRows|
    requires forall k :: 0 <= k < |userRows| ==> fetched[k] == User(userRows[k])
    requires forall k :: 0 <= k < |botRows| ==> fetched[|userRows| + k] == Bot(botRows[k])
    ensures IsFetched(s, cursor, limit + 1, fetched)
  {
    forall x | x in fetched
      ensures Holds(s, x) && Wanted(cursor, x)
    {
      var k :| 0 <= k < |fetched| && fetched[k] == x;
      if k < |userRows| {
        assert userRows[k] in userRows;
      } else {
        assert botRows[k - |userRows|] in botRows;
      }
    }
    forall i, j | 0 <= i < j < |fetched|
      ensures Ahead(fetched[i], fetched[j])
    {
      assert i >= |userRows| ==> fetched[i] == Bot(botRows[i - |userRows|]);
      assert j >= |userRows| ==> fetched[j] == Bot(botRows[j - |userRows|]);
    }
    forall k | 0 <= k < |userRows|
      ensures User(userRows[k]) in fetched
    {
      assert fetched[k] == User(userRows[k]);
    }
    forall k | 0 <= k < |botRows|
      ensures Bot(botRows[k]) in fetched
    {
      assert fetched[|userRows| + k] == Bot(botRows[k]);
    }
    forall x | Holds(s, x) && Wanted(cursor, x) && x !in fetched
      ensures |fetched| == limit + 1 && Ahead(Last(fetched), x)
    {
      assert x.User? ==> x.id !in userRows;
      assert x.Bot? ==> x.id !in botRows;
    }
  }

  lemma CutIsPage(s: Snapshot, cursor: Option<Cursor>, limit: nat, fetched: seq<Item>, page: Page)
    requires limit > 0 && IsFetched(s, cursor, limit + 1, fetched)
    requires if |fetched| > limit then page == Page(fetched[..limit], Some(CursorAt(fetched[limit - 1])))
             else page == Page(fetched, None)
    ensures IsPage(s, cursor, limit, page)
  {
    if |fetched| > limit {
      var last := fetched[limit];
      assert fetched == page.members + [last];
      assert last in fetched;
      assert last !in page.members by {
        if last in page.members {
          var k :| 0 <= k < limit && fetched[k] == last;
          assert Ahead(fetched[k], fetched[limit]);
          LessIsStrict(last.id, last.id);
        }
      }
      assert Holds(s, last) && Wanted(cursor, last);
      forall x | Holds(s, x) && Wanted(cursor, x) && x !in page.members
        ensures Ahead(Last(page.members), x)
      {
        if x != last {
          AheadIsTransitive(fetched[limit - 1], last, x);
        }
      }
    }
  }

  lemma AheadIsTransitive(a: Item, b: Item, c: Item)
    requires Ahead(a, b) && Ahead(b, c)
    ensures Ahead(a, c)
  {
    if a.User? == c.User? {
      LessIsTransitive(a.id, b.id, c.id);
    }
  }

  lemma AheadIsTotal(a: Item, b: Item)
    ensures Ahead(a, b) || Ahead(b, a) || a == b
  {
    LessIsTotal(a.id, b.id);
  }

  // ---- Following next_cursor ----

  function NextOf(pages: seq<Page>): Option<Cursor> {
    if pages == [] then None else Last(pages).next
  }

  /** Each page is served from its own snapshot with the cursor of the page before. */
  ghost predicate IsWalk(snaps: seq<Snapshot>, limit: nat, pages: seq<Page>) {
    |snaps| == |pages|
    && (pages != [] ==>
          && IsWalk(Init(snaps), limit, Init(pages))
          && (|pages| > 1 ==> NextOf(Init(pages)).Some?)
          && IsPage(Last(snaps), NextOf(Init(pages)), limit, Last(pages)))
  }

  /** All the items of the pages in order. */
  function Collected(pages: seq<Page>): seq<Item> {
    if pages == [] then [] else Collected(Init(pages)) + Last(pages).members
  }

  /** With a cursor from the server, wanted means behind the item the cursor stands at. */
  lemma WantedIsAhead(item: Item, x: Item)
    ensures Wanted(Some(CursorAt(item)), x) <==> Ahead(item, x)
  {
  }

  /** What is collected after some pages: rising, up to the cursor, and complete up to it. */
  ghost predicate CollectedUpTo(snaps: seq<Snapshot>, items: seq<Item>, next: Option<Cursor>) {
    && Rising(items)
    && (next.Some? ==> items != [] && next == Some(CursorAt(Last(items))))
    && (forall x :: (forall i :: 0 <= i < |snaps| ==> Holds(snaps[i], x)) && (next.Some? ==> !Wanted(next, x)) ==>
          x in items)
  }

  lemma {:induction false} WalkCollects(snaps: seq<Snapshot>, limit: nat, pages: seq<Page>)
    requires limit > 0 && pages != [] && IsWalk(snaps, limit, pages)
    ensures CollectedUpTo(snaps, Collected(pages), Last(pages).next)
  {
    var page, before := Last(pages), Init(pages);
    if |pages| == 1 {
      assert Collected(before) + page.members == page.members;
      FirstPageCollects(snaps, limit, page);
    } else {
      WalkCollects(Init(snaps), limit, before);
      NextPageCollects(snaps, limit, Collected(before), Last(before).next, page);
    }
  }

  lemma FirstPageCollects(snaps: seq<Snapshot>, limit: nat, page: Page)
    requires limit > 0 && snaps != [] && IsPage(Last(snaps), None, limit, page)
    ensures CollectedUpTo(snaps, page.members, page.next)
  {
    forall x | (forall i :: 0 <= i < |snaps| ==> Holds(snaps[i], x)) && (page.next.Some? ==> !Wanted(page.next, x))
      ensures x in page.members
    {
      assert Holds(snaps[|snaps| - 1], x);
      assert Wanted(None, x);
      if page.next.Some? {
        WantedIsAhead(Last(page.members), x);
      }
    }
  }

  lemma NextPageCollects(snaps: seq<Snapshot>, limit: nat, items: seq<Item>, cursor: Option<Cursor>, page: Page)
    requires limit > 0 && snaps != [] && cursor.Some? && CollectedUpTo(Init(snaps), items, cursor)
    requires IsPage(Last(snaps), cursor, limit, page)
    ensures CollectedUpTo(snaps, items + page.members, page.next)
  {
    var all := items + page.members;
    forall i, j | 0 <= i < |items| && 0 <= j < |page.members|
      ensures Ahead(items[i], page.members[j])
    {
      assert page.members[j] in page.members;
      WantedIsAhead(Last(items), page.members[j]);
      if i < |items| - 1 {
        AheadIsTransitive(items[i], items[|items| - 1], page.members[j]);
      }
    }
    assert Rising(all);
    assert page.members != [] ==> Last(all) == Last(page.members);
    forall x | (forall i :: 0 <= i < |snaps| ==> Holds(snaps[i], x)) && (page.next.Some? ==> !Wanted(page.next, x))
      ensures x in all
    {
      assert forall i :: 0 <= i < |snaps| - 1 ==> Init(snaps)[i] == snaps[i];
      assert Holds(snaps[|snaps| - 1], x);
      if page.next.Some? {
        WantedIsAhead(Last(page.members), x);
      }
      if Wanted(cursor, x) {
        assert x in page.members;
      } else {
        assert x in items;
      }
    }
  }

  /**
   Following next_cursor to the end returns everybody who was there throughout, users before bots in id
   order and nobody twice, whoever joins and leaves in between.
   */
  lemma WalkReturnsWhoStayed(snaps: seq<Snapshot>, limit: nat, pages: seq<Page>)
    requires limit > 0 && pages != [] && IsWalk(snaps, limit, pages)
    ensures Rising(Collected(pages))
    ensures forall i, j :: 0 <= i < j < |Collected(pages)| ==> Collected(pages)[i] != Collected(pages)[j]
    ensures Last(pages).next.None? ==>
              forall x :: (forall i :: 0 <= i < |snaps| ==> Holds(snaps[i], x)) ==> x in Collected(pages)
  {
    WalkCollects(snaps, limit, pages);
    RisingHasNoDoubles(Collected(pages));
  }

  lemma RisingHasNoDoubles(items: seq<Item>)
    requires Rising(items)
    ensures forall i, j :: 0 <= i < j < |items| ==> items[i] != items[j]
  {
    forall i, j | 0 <= i < j < |items|
      ensures items[i] != items[j]
    {
      assert Ahead(items[i], items[j]);
      LessIsTotal(items[i].id, items[j].id);
      if items[i] == items[j] {
        LessIsStrict(items[i].id, items[j].id);
      }
    }
  }

  /** In a room that does not change, a walk ends after at most as many further pages as there are members. */
  lemma WalkEnds(s: Snapshot, limit: nat, pages: seq<Page>)
    requires limit > 0 && pages != [] && IsWalk(seq(|pages|, _ => s), limit, pages)
    ensures |pages| <= |s.users| + |s.bots| + 1
    ensures Last(pages).next.None? ==> forall x :: x in Collected(pages) <==> Holds(s, x)
  {
    var snaps := seq(|pages|, _ => s);
    WalkReturnsWhoStayed(snaps, limit, pages);
    PagesAreFull(s, limit, pages);
    var users, bots := set u | u in s.users :: User(u), set b | b in s.bots :: Bot(b);
    UserCount(s.users);
    BotCount(s.bots);
    assert |users + bots| <= |users| + |bots|;
    DistinctFit(Collected(pages), users + bots);
    assert forall x :: Holds(s, x) ==> forall i :: 0 <= i < |snaps| ==> Holds(snaps[i], x);
  }

  /** Every page but the last is full. */
  lemma {:induction false} PagesAreFull(s: Snapshot, limit: nat, pages: seq<Page>)
    requires limit > 0 && pages != [] && IsWalk(seq(|pages|, _ => s), limit, pages)
    ensures |Collected(pages)| >= |pages| - if Last(pages).next.Some? then 0 else 1
    ensures forall x :: x in Collected(pages) ==> Holds(s, x)
  {
    var before := Init(pages);
    assert Init(seq(|pages|, _ => s)) == seq(|before|, _ => s);
    if before != [] {
      PagesAreFull(s, limit, before);
    }
  }

  lemma {:induction false} DistinctFit<T>(items: seq<T>, all: set<T>)
    requires forall i, j :: 0 <= i < j < |items| ==> items[i] != items[j]
    requires forall x :: x in items ==> x in all
    ensures |items| <= |all|
  {
    if items != [] {
      var rest := all - {Last(items)};
      assert forall x :: x in Init(items) ==> x in rest;
      DistinctFit(Init(items), rest);
      assert Last(items) in items;
      assert |rest| == |all| - 1;
    }
  }

  lemma {:induction false} UserCount(users: set<Id>)
    ensures |set u | u in users :: User(u)| == |users|
  {
    if u :| u in users {
      UserCount(users - {u});
      assert (set v | v in users :: User(v)) == (set v | v in users - {u} :: User(v)) + {User(u)};
    }
  }

  lemma {:induction false} BotCount(bots: set<Id>)
    ensures |set b | b in bots :: Bot(b)| == |bots|
  {
    if b :| b in bots {
      BotCount(bots - {b});
      assert (set c | c in bots :: Bot(c)) == (set c | c in bots - {b} :: Bot(c)) + {Bot(b)};
    }
  }
}
