/**
 * What a backend remembers of the public room (app/server.js:375-389, 487-495, 533-547),
 * as views of one growing history of accepted rows: the buffer shows its last `count`
 * rows, the id set guards its last `|seen|` ids.
 */
module FeedModel {
  import opened Common
  import opened MessageTable

  /** `seen` is a JavaScript Set, oldest id first. */
  datatype Feed = Feed(history: seq<Row>, seen: seq<Id>, count: nat, lastNum: nat, total: nat)

  const EMPTY := Feed([], [], 0, 0, 0)

  /** The buffer is cut back to `feedMax` rows only when a block of feedMax/16 is over. */
  function TrimmedCount(count: nat, feedMax: nat): nat {
    if count > feedMax + feedMax / 16 then feedMax else count
  }

  /** A row whose id is not among the guarded ones. */
  function AcceptNew(f: Feed, feedMax: nat, row: Row): Feed {
    var seen := f.seen + [row.id];
    Feed(f.history + [row],
         if |seen| > feedMax * 2 then LastN(seen, feedMax) else seen,
         TrimmedCount(f.count + 1, feedMax),
         Max(f.lastNum, row.num),
         f.total + 1)
  }

  function Accept(f: Feed, feedMax: nat, row: Row): Feed {
    if row.id == NO_ID || row.id in f.seen then f else AcceptNew(f, feedMax, row)
  }

  function AcceptAll(f: Feed, feedMax: nat, rows: seq<Row>): Feed {
    if rows == [] then f else Accept(AcceptAll(f, feedMax, rows[..|rows| - 1]), feedMax, rows[|rows| - 1])
  }

  /** The poll cursor after a reply: it moves to the highest number received, never back. */
  function HighestOf(cursor: nat, rows: seq<Row>): nat {
    if rows == [] then cursor else Max(HighestOf(cursor, rows[..|rows| - 1]), rows[|rows| - 1].num)
  }

  /** The rows the buffer shows. */
  function Held(f: Feed): seq<Row> {
    LastN(f.history, f.count)
  }

  /** The guarded ids are those of the newest `|seen|` accepted rows, in order. */
  ghost predicate SeenIsSuffix(seen: seq<Id>, history: seq<Row>) {
    && |seen| <= |history|
    && forall i :: 0 <= i < |seen| ==> seen[i] == history[|history| - |seen| + i].id
  }

  /** Rows at most `gap` places apart carry different ids. */
  ghost predicate Spaced(history: seq<Row>, gap: nat) {
    forall i, j :: 0 <= i < j < |history| && j - i <= gap ==> history[i].id != history[j].id
  }

  /** The highest number among the rows, or 0 when there are none. */
  ghost predicate IsHighest(num: nat, rows: seq<Row>) {
    && (forall row | row in rows :: row.num <= num)
    && (if rows == [] then num == 0 else exists row :: row in rows && row.num == num)
  }

  ghost predicate Good(f: Feed, feedMax: nat) {
    && SeenIsSuffix(f.seen, f.history)
    && Min(|f.history|, feedMax) <= |f.seen| <= feedMax * 2
    && Min(|f.history|, feedMax) <= f.count <= feedMax + feedMax / 16
    && f.count <= |f.history|
    && f.count <= f.total
    && Spaced(f.history, feedMax)
    && IsHighest(f.lastNum, f.history)
  }

  lemma HighestPush(num: nat, rows: seq<Row>, row: Row)
    requires IsHighest(num, rows)
    ensures IsHighest(Max(num, row.num), rows + [row])
  {
    if rows != [] {
      var top :| top in rows && top.num == num;
      assert top in rows + [row];
    }
    assert (rows + [row])[|rows|] == row;
  }

  lemma SpacedPush(history: seq<Row>, seen: seq<Id>, gap: nat, row: Row)
    requires Spaced(history, gap) && row.id !in seen
    requires SeenIsSuffix(seen, history) && |seen| >= Min(|history|, gap)
    ensures Spaced(history + [row], gap)
  {
    var n := |history|;
    forall i | 0 <= i < n && n - i <= gap
      ensures history[i].id != row.id
    {
      assert seen[i - (n - |seen|)] == history[i].id;
    }
  }

  lemma SeenPush(seen: seq<Id>, history: seq<Row>, row: Row, n: nat)
    requires SeenIsSuffix(seen, history)
    ensures SeenIsSuffix(seen + [row.id], history + [row])
    ensures SeenIsSuffix(LastN(seen + [row.id], n), history + [row])
  {
    hide LastN;
    SeenTrim(seen + [row.id], history + [row], n);
  }

  lemma SeenTrim(seen: seq<Id>, history: seq<Row>, n: nat)
    requires SeenIsSuffix(seen, history)
    ensures SeenIsSuffix(LastN(seen, n), history)
  {
    var kept := LastN(seen, n);
    forall i | 0 <= i < |kept|
      ensures kept[i] == history[|history| - |kept| + i].id
    {
      assert kept[i] == seen[|seen| - |kept| + i];
    }
  }

  lemma AcceptKeepsGood(f: Feed, feedMax: nat, row: Row)
    requires feedMax >= 1 && Good(f, feedMax)
    ensures Good(Accept(f, feedMax, row), feedMax)
  {
    if row.id != NO_ID && row.id !in f.seen {
      SeenPush(f.seen, f.history, row, feedMax);
      SpacedPush(f.history, f.seen, feedMax, row);
      HighestPush(f.lastNum, f.history, row);
    }
  }

  /** What reaches the feed: a firehose row, the reply to a poll, the reply to a load.
      `reported` is the room total the database names in its reply. */
  datatype Arrival =
    | Firehose(row: Row)
    | PollReply(rows: seq<Row>, reported: nat)
    | LoadReply(rows: seq<Row>, reported: nat)

  function Arrive(f: Feed, feedMax: nat, a: Arrival): Feed {
    match a
    case Firehose(row) => Accept(f, feedMax, row)
    case PollReply(rows, reported) =>
      var g := AcceptAll(f, feedMax, rows);
      g.(total := Max(g.total, reported))
    case LoadReply(rows, reported) =>
      var g := AcceptAll(f, feedMax, rows);
      g.(total := Max(reported, g.count))
  }

  function ArriveAll(f: Feed, feedMax: nat, arrivals: seq<Arrival>): Feed {
    if arrivals == [] then f
    else Arrive(ArriveAll(f, feedMax, arrivals[..|arrivals| - 1]), feedMax, arrivals[|arrivals| - 1])
  }

  lemma {:induction false} AcceptAllKeepsGood(f: Feed, feedMax: nat, rows: seq<Row>)
    requires feedMax >= 1 && Good(f, feedMax)
    ensures Good(AcceptAll(f, feedMax, rows), feedMax)
  {
    if rows != [] {
      AcceptAllKeepsGood(f, feedMax, rows[..|rows| - 1]);
      AcceptKeepsGood(AcceptAll(f, feedMax, rows[..|rows| - 1]), feedMax, rows[|rows| - 1]);
    }
  }

  lemma ArriveKeepsGood(f: Feed, feedMax: nat, a: Arrival)
    requires feedMax >= 1 && Good(f, feedMax)
    ensures Good(Arrive(f, feedMax, a), feedMax)
  {
    match a
    case Firehose(row) => AcceptKeepsGood(f, feedMax, row);
    case PollReply(rows, _) => AcceptAllKeepsGood(f, feedMax, rows);
    case LoadReply(rows, _) => AcceptAllKeepsGood(f, feedMax, rows);
  }

  /** In every run, whatever arrives, however often and in any order: the id set guards
      between min(|H|, feedMax) and 2*feedMax of the newest accepted ids, the buffer shows
      between min(|H|, feedMax) and feedMax + feedMax/16 of the newest rows, never more
      than the reported total, and an id repeats only further apart than feedMax. */
  lemma {:induction false} GoodInEveryRun(feedMax: nat, arrivals: seq<Arrival>)
    requires feedMax >= 1
    ensures Good(ArriveAll(EMPTY, feedMax, arrivals), feedMax)
  {
    if arrivals != [] {
      GoodInEveryRun(feedMax, arrivals[..|arrivals| - 1]);
      ArriveKeepsGood(ArriveAll(EMPTY, feedMax, arrivals[..|arrivals| - 1]), feedMax, arrivals[|arrivals| - 1]);
    }
  }

  /** Re-delivery of any of the newest `feedMax` rows changes nothing. */
  lemma RedeliveryDropped(f: Feed, feedMax: nat, k: nat)
    requires Good(f, feedMax) && k < |f.history| && |f.history| - k <= feedMax
    ensures Accept(f, feedMax, f.history[k]) == f
  {
    var skipped := |f.history| - |f.seen|;
    assert f.seen[k - skipped] == f.history[k].id;
  }

  /** The newest `feedMax` rows the buffer shows have pairwise distinct ids. */
  lemma NewestDistinct(f: Feed, feedMax: nat)
    requires Good(f, feedMax)
    ensures UniqueIds(LastN(Held(f), feedMax))
  {
    hide SeenIsSuffix, IsHighest;
    var newest := LastN(Held(f), feedMax);
    var skipped := |f.history| - |newest|;
    assert newest == f.history[skipped..];
    forall i, j | 0 <= i < j < |newest|
      ensures newest[i].id != newest[j].id
    {
      assert newest[i] == f.history[skipped + i] && newest[j] == f.history[skipped + j];
    }
  }

  /** What the buffer shows and the id set guards after a new row: one more each, until a
      whole block is over, and then exactly the newest. */
  lemma TrimsInBlocks(f: Feed, feedMax: nat, row: Row)
    requires feedMax >= 1 && Good(f, feedMax) && row.id != NO_ID && row.id !in f.seen
    ensures var g, shown := Accept(f, feedMax, row), Held(f) + [row];
            && Held(g) == (if |shown| <= feedMax + feedMax / 16 then shown else LastN(shown, feedMax))
            && g.seen == (if |f.seen| < 2 * feedMax then f.seen + [row.id] else LastN(f.seen + [row.id], feedMax))
            && g.history == f.history + [row] && g.total == f.total + 1
  {
    hide Spaced, IsHighest, SeenIsSuffix;
    LastOfMore(f.history, f.count, row);
  }

  lemma LastOfMore(rows: seq<Row>, n: nat, row: Row)
    requires n <= |rows|
    ensures LastN(rows + [row], n + 1) == LastN(rows, n) + [row]
    ensures forall m: nat | m <= n + 1 :: LastN(rows + [row], m) == LastN(LastN(rows, n) + [row], m)
  {
  }

  ghost predicate HasId(rows: seq<Row>, id: Id) {
    exists row :: row in rows && row.id == id
  }

  /** Offering a row never removes anything, and afterwards its id has been accepted. */
  lemma AcceptReaches(f: Feed, feedMax: nat, row: Row)
    requires Good(f, feedMax)
    ensures f.history <= Accept(f, feedMax, row).history
    ensures row.id != NO_ID ==> HasId(Accept(f, feedMax, row).history, row.id)
    ensures forall r | r in Accept(f, feedMax, row).history :: r in f.history || r == row
  {
    if row.id in f.seen {
      var i :| 0 <= i < |f.seen| && f.seen[i] == row.id;
      assert f.history[|f.history| - |f.seen| + i].id == row.id;
    } else if row.id != NO_ID {
      assert Accept(f, feedMax, row).history[|f.history|] == row;
    }
  }

  /** The rows an arrival brings. */
  function RowsOf(a: Arrival): seq<Row> {
    if a.Firehose? then [a.row] else a.rows
  }

  lemma {:induction false} AllReach(f: Feed, feedMax: nat, rows: seq<Row>)
    requires feedMax >= 1 && Good(f, feedMax)
    ensures var g := AcceptAll(f, feedMax, rows);
            && Good(g, feedMax) && f.history <= g.history
            && g.total == f.total + |g.history| - |f.history|
            && (forall row | row in rows && row.id != NO_ID :: HasId(g.history, row.id))
  {
    hide Good;
    if rows != [] {
      var front, last := rows[..|rows| - 1], rows[|rows| - 1];
      AllReach(f, feedMax, front);
      var h := AcceptAll(f, feedMax, front);
      AcceptReaches(h, feedMax, last);
      AcceptKeepsGood(h, feedMax, last);
      SplitLast(rows);
      StillThere(h.history, Accept(h, feedMax, last).history);
    }
  }

  lemma StillThere(some: seq<Row>, more: seq<Row>)
    requires some <= more
    ensures forall id | HasId(some, id) :: HasId(more, id)
  {
    forall id | HasId(some, id) ensures HasId(more, id) {
      var row :| row in some && row.id == id;
      assert row in more;
    }
  }

  /** Whatever arrives, every row of it ends up accepted.  A firehose row counts towards the
      total when it is new, a poll reply raises the total to what the database reports, and a
      load reply sets it to that, or to the rows shown when those are more. */
  lemma ArrivalReaches(f: Feed, feedMax: nat, a: Arrival)
    requires feedMax >= 1 && Good(f, feedMax)
    ensures var g := Arrive(f, feedMax, a);
            var gained := |g.history| - |f.history|;
            && f.history <= g.history
            && (forall row | row in RowsOf(a) && row.id != NO_ID :: HasId(g.history, row.id))
            && g.total == match a
                          case Firehose(_) => f.total + gained
                          case PollReply(_, reported) => Max(f.total + gained, reported)
                          case LoadReply(_, reported) => Max(reported, |Held(g)|)
  {
    hide Accept;
    AllReach(f, feedMax, RowsOf(a));
    ArriveKeepsGood(f, feedMax, a);
    if a.Firehose? {
      assert [a.row][..0] == [];
      assert AcceptAll(f, feedMax, []) == f;
      assert AcceptAll(f, feedMax, [a.row]) == Accept(f, feedMax, a.row);
    }
  }
}
