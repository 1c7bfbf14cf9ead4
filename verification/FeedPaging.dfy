/**
 * GET /feed?since=N&limit=P: forward paging through a room that keeps growing
 * (app/db_service.js:404-416, query at line 114).
 */
module FeedPaging {
  import opened Common
  import opened MessageTable

  /** `since` echoes the request; `next` is None on the last page. */
  datatype Page = Page(rows: seq<Row>, since: nat, next: Option<nat>)

  /** WHERE seq > since */
  function After(rows: seq<Row>, since: nat): seq<Row> {
    if rows == [] then []
    else
      var front := After(rows[..|rows| - 1], since);
      var last := rows[|rows| - 1];
      if last.num > since then front + [last] else front
  }

  /** The clamp on the requested page size. */
  function PageSize(requested: int, pageMax: nat): (size: nat)
    ensures pageMax >= 1 ==> 1 <= size <= pageMax && (1 <= requested <= pageMax ==> size == requested)
  {
    Min(pageMax, Max(1, requested))
  }

  /** The answer to one request over the current table. */
  function FeedPage(rows: seq<Row>, room: Room, since: nat, size: nat): Page {
    var matching := After(InRoom(rows, room), since);
    var page := if |matching| <= size then matching else matching[..size];
    var last := if page == [] then since else page[|page| - 1].num;
    Page(page, since, if |page| == size then Some(last) else None)
  }

  /** In a gap-free room the rows after `since` are the ones from index `since` on. */
  lemma {:induction false} AfterIsDrop(rows: seq<Row>, since: nat)
    requires forall k | 0 <= k < |rows| :: rows[k].num == k + 1
    ensures After(rows, since) == rows[Min(since, |rows|)..]
  {
    if rows != [] {
      var n := |rows| - 1;
      AfterIsDrop(rows[..n], since);
      assert rows[n].num == n + 1;
      DropSnoc(rows[..n], rows[n], since);
      assert rows == rows[..n] + [rows[n]];
    }
  }

  lemma DropSnoc(front: seq<Row>, last: Row, since: nat)
    ensures (front + [last])[Min(since, |front| + 1)..]
            == if since <= |front| then front[since..] + [last] else []
  {
  }

  lemma TakeOfDrop(rows: seq<Row>, since: nat, size: nat)
    requires since + size <= |rows|
    ensures rows[since..][..size] == rows[since..since + size]
  {
  }

  /** A page is the block of the room that starts where the cursor stands, empty when the
      cursor is past the room's end. */
  lemma PageIsBlock(rows: seq<Row>, room: Room, since: nat, size: nat)
    requires Consistent(rows) && size >= 1
    ensures var n := |InRoom(rows, room)|;
            var p := FeedPage(rows, room, since, size);
            && p.rows == InRoom(rows, room)[Min(since, n)..Min(since + size, n)]
            && p.next == (if since + size <= n then Some(since + size) else None)
            && p.since == since
  {
    hide InRoom, UniqueIds, After;
    var all := InRoom(rows, room);
    AfterIsDrop(all, since);
    if since + size <= |all| {
      TakeOfDrop(all, since, size);
      assert FeedPage(rows, room, since, size).rows == all[since..since + size];
      assert all[since..since + size][size - 1] == all[since + size - 1];
    }
  }

  /** What a reader that follows `next` has in the end, and how many pages it took;
      `finished` is false when it ran out of table states to ask. */
  datatype Walked = Walked(rows: seq<Row>, pages: nat, finished: bool)

  /** Page `i` is answered from `tables[i]`: any appends may commit between pages. */
  function Walk(tables: seq<seq<Row>>, room: Room, since: nat, size: nat): Walked {
    if tables == [] then Walked([], 0, false)
    else
      var p := FeedPage(tables[0], room, since, size);
      match p.next
      case None => Walked(p.rows, 1, true)
      case Some(next) =>
        var rest := Walk(tables[1..], room, next, size);
        Walked(p.rows + rest.rows, rest.pages + 1, rest.finished)
  }

  /** Every table state is consistent and extends the one before it. */
  ghost predicate Growing(tables: seq<seq<Row>>) {
    && (forall t | t in tables :: Consistent(t))
    && (forall i, j :: 0 <= i <= j < |tables| ==> tables[i] <= tables[j])
  }

  lemma InRoomPrefix(rows: seq<Row>, later: seq<Row>, room: Room)
    requires rows <= later
    ensures InRoom(rows, room) <= InRoom(later, room)
  {
    assert later == rows + later[|rows|..];
    InRoomConcat(rows, later[|rows|..], room);
  }

  /** Paging is complete: whatever is appended between the pages, the rows read are the
      room's rows after the starting cursor, each once and in order, up to the last row
      the room held when the final page was answered. */
  lemma {:induction false} WalkIsComplete(tables: seq<seq<Row>>, room: Room, since: nat, size: nat)
    requires Growing(tables) && size >= 1
    requires tables != [] ==> since <= |InRoom(tables[0], room)|
    ensures Walk(tables, room, since, size).finished ==> Complete(tables, room, since, Walk(tables, room, since, size))
  {
    hide InRoom, FeedPage;
    if tables != [] {
      PageIsBlock(tables[0], room, since, size);
      if FeedPage(tables[0], room, since, size).next.Some? && |tables| > 1 {
        GrowingTail(tables);
        InRoomPrefix(tables[0], tables[1], room);
        WalkIsComplete(tables[1..], room, since + size, size);
        if Walk(tables[1..], room, since + size, size).finished {
          WalkStep(tables, room, since, size);
        }
      }
    }
  }

  /** All rows after the cursor that the room held at the final page, in order. */
  ghost predicate Complete(tables: seq<seq<Row>>, room: Room, since: nat, w: Walked) {
    && 1 <= w.pages <= |tables|
    && since <= |InRoom(tables[w.pages - 1], room)|
    && w.rows == InRoom(tables[w.pages - 1], room)[since..]
  }

  lemma WalkStep(tables: seq<seq<Row>>, room: Room, since: nat, size: nat)
    requires Growing(tables) && |tables| > 1 && since + size <= |InRoom(tables[0], room)|
    requires FeedPage(tables[0], room, since, size).rows == InRoom(tables[0], room)[since..since + size]
    requires FeedPage(tables[0], room, since, size).next == Some(since + size)
    requires Complete(tables[1..], room, since + size, Walk(tables[1..], room, since + size, size))
    ensures Complete(tables, room, since, Walk(tables, room, since, size))
  {
    hide InRoom, FeedPage, Consistent;
    var w := Walk(tables[1..], room, since + size, size);
    InRoomPrefix(tables[0], tables[w.pages], room);
    SliceJoin(InRoom(tables[0], room), InRoom(tables[w.pages], room), since, since + size);
  }

  lemma GrowingTail(tables: seq<seq<Row>>)
    requires Growing(tables) && tables != []
    ensures Growing(tables[1..])
  {
    assert forall t | t in tables[1..] :: t in tables;
  }

  lemma SliceJoin(some: seq<Row>, all: seq<Row>, lo: nat, hi: nat)
    requires some <= all && lo <= hi <= |some|
    ensures all[lo..] == some[lo..hi] + all[hi..]
  {
  }

  /** From cursor 0 the reader gets rows 1..M exactly once, in order, where M is the last
      number in the room at the final page, whatever page size it asks for. */
  lemma FullHistory(tables: seq<seq<Row>>, room: Room, requested: int, pageMax: nat)
    requires Growing(tables) && pageMax >= 1
    ensures var w := Walk(tables, room, 0, PageSize(requested, pageMax));
            w.finished ==>
              && 1 <= w.pages <= |tables|
              && w.rows == InRoom(tables[w.pages - 1], room)
              && |w.rows| == MaxNum(tables[w.pages - 1], room)
              && forall k | 0 <= k < |w.rows| :: w.rows[k].num == k + 1
  {
    var size := PageSize(requested, pageMax);
    WalkIsComplete(tables, room, 0, size);
    var w := Walk(tables, room, 0, size);
    if w.finished {
      assert tables[w.pages - 1] in tables;
      MaxNumIsCount(tables[w.pages - 1], room);
    }
  }

  /** On a room that no longer grows, paging ends after exactly floor((n - since) / P) + 1
      pages: the last full page is followed by one shorter (possibly empty) page. */
  lemma {:induction false} StaticRoomEnds(rows: seq<Row>, room: Room, since: nat, size: nat, tables: seq<seq<Row>>)
    requires Consistent(rows) && size >= 1 && since <= |InRoom(rows, room)|
    requires forall t | t in tables :: t == rows
    requires |tables| > (|InRoom(rows, room)| - since) / size
    ensures Walk(tables, room, since, size).finished
    ensures Walk(tables, room, since, size).pages == (|InRoom(rows, room)| - since) / size + 1
    decreases |tables|
  {
    var n := |InRoom(rows, room)|;
    assert tables[0] in tables;
    PageIsBlock(rows, room, since, size);
    if since + size <= n {
      DivStep(n - since, size);
      assert forall t | t in tables[1..] :: t in tables;
      StaticRoomEnds(rows, room, since + size, size, tables[1..]);
    } else {
      DivSmall(n - since, size);
    }
  }

  lemma DivStep(a: nat, d: nat)
    requires 1 <= d <= a
    ensures a / d == (a - d) / d + 1
  {
    var q, r := (a - d) / d, (a - d) % d;
    assert a - d == q * d + r;
    QuotientUnique(a, d, q + 1, r);
  }

  lemma QuotientUnique(a: nat, d: nat, q: int, r: int)
    requires d >= 1 && a == q * d + r && 0 <= r < d
    ensures a / d == q
  {
    assert a == a / d * d + a % d;
    SameQuotient(d, q, r, a / d, a % d);
  }

  lemma SameQuotient(d: nat, q: int, r: int, q': int, r': int)
    requires q * d + r == q' * d + r' && 0 <= r < d && 0 <= r' < d
    ensures q == q'
  {
    var k := q - q';
    assert k * d == r' - r;
    if k >= 1 {
      MulGrows(k, d);
    } else if k <= -1 {
      MulGrows(-k, d);
    }
  }

  lemma MulGrows(k: int, d: nat)
    requires k >= 1
    ensures k * d >= d
  {
  }

  lemma DivSmall(a: nat, d: nat)
    requires a < d
    ensures a / d == 0
  {
  }
}
