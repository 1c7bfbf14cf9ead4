/**
 * How a backend rebuilds the public room from a lossy firehose and a cursor-based poll
 * (app/server.js:510-527, 555-583, 609-617 against app/db_service.js:404-431).
 *
 * One world holds the database's log of the room, the replica, and everything in
 * flight.  A firehose frame is a committed row delivered at any time, any number of
 * times or never, which covers loss, duplication and reordering.  Questions to the
 * database may be lost, answered late, and their answers lost or received late, with
 * any number outstanding.
 */
module Replica {
  import opened Common
  import opened MessageTable
  import opened FeedModel

  /** `feedMax` rows per load, at most `pageMax` per answer, `pollMax` asked per poll. */
  datatype Config = Config(feedMax: nat, pageMax: nat, pollMax: nat) {
    predicate Valid() { feedMax >= 1 && pageMax >= 1 && pollMax >= 1 }

    function PollPage(): nat { Min(pageMax, pollMax) }

    function CatchUpPage(): nat { Min(pageMax, feedMax) }
  }

  /** `?since=` from the poll cursor, `?limit=` for the newest rows, `?since=` from the
      newest number held. */
  datatype Ask = Poll(since: nat) | Tail | CatchUp(since: nat)

  /** `rows` start just after row number `start`; `reported` is the room's row count. */
  datatype Reply = Reply(ask: Ask, start: nat, rows: seq<Row>, reported: nat)

  /** The one initial load: not in flight, asked, or answered. */
  datatype Load = Idle | Asked | Answered(reply: Reply)

  /** `base` is where the initial window began: rows up to it are not the replica's to hold. */
  datatype World = World(
    log: seq<Row>, feed: Feed, cursor: nat, ready: bool, load: Load,
    asks: seq<Ask>, replies: seq<Reply>, base: nat)

  datatype Event =
    | Commit(id: Id, content: Content)
    | Frame(k: nat)
    | IssueLoad
    | AnswerLoad(asOf: nat)
    | ReceiveLoad
    | LoseLoad
    | IssuePoll
    | IssueCatchUp
    | Answer(i: nat, asOf: nat)
    | Receive(i: nat)
    | LoseAsk(i: nat)
    | LoseReply(i: nat)

  const INIT := World([], EMPTY, 0, false, Idle, [], [], 0)

  // ---- steps -----------------------------------------------------------------

  function Commits(w: World, id: Id, content: Content): World {
    if id == NO_ID || (exists row :: row in w.log && row.id == id) then w
    else w.(log := w.log + [Row(id, PUBLIC, |w.log| + 1, content)])
  }

  function FrameArrives(w: World, c: Config, row: Row): World {
    w.(feed := Accept(w.feed, c.feedMax, row),
       cursor := if w.ready && row.num == w.cursor + 1 then row.num else w.cursor)
  }

  /** The block of at most `size` rows after row number `since`. */
  function Block(log: seq<Row>, since: nat, size: nat): seq<Row> {
    if since >= |log| then [] else log[since..Min(since + size, |log|)]
  }

  /** The database answers.  The newest rows may come from a tail cache that is a moment
      old, so they are those of some earlier log of length `asOf`. */
  function Respond(log: seq<Row>, c: Config, ask: Ask, asOf: nat): Reply {
    match ask
    case Poll(since) => Reply(ask, since, Block(log, since, c.PollPage()), |log|)
    case CatchUp(since) => Reply(ask, since, Block(log, since, c.CatchUpPage()), |log|)
    case Tail =>
      var n := Min(asOf, |log|);
      Reply(ask, Max(0, n - c.feedMax), log[Max(0, n - c.feedMax)..n], n)
  }

  function AsArrival(r: Reply): Arrival {
    if r.ask.Poll? then PollReply(r.rows, r.reported) else LoadReply(r.rows, r.reported)
  }

  function ReplyArrives(w: World, c: Config, r: Reply): World {
    w.(feed := Arrive(w.feed, c.feedMax, AsArrival(r)),
       cursor := HighestOf(w.cursor, r.rows))
  }

  function Step(w: World, c: Config, e: Event): World {
    match e
    case Commit(id, content) => Commits(w, id, content)
    case Frame(k) => if k < |w.log| then FrameArrives(w, c, w.log[k]) else w
    case IssueLoad => if w.ready || !w.load.Idle? then w else w.(load := Asked)
    case AnswerLoad(asOf) => if w.load.Asked? then w.(load := Answered(Respond(w.log, c, Tail, asOf))) else w
    case ReceiveLoad =>
      if !w.load.Answered? then w
      else ReplyArrives(w, c, w.load.reply).(ready := true, load := Idle, base := w.load.reply.start)
    case LoseLoad => w.(load := Idle)
    case IssuePoll => if w.ready then w.(asks := w.asks + [Poll(w.cursor)]) else w
    case IssueCatchUp =>
      if !w.ready then w
      else w.(asks := w.asks + [if w.feed.lastNum != 0 then CatchUp(w.feed.lastNum) else Tail])
    case Answer(i, asOf) =>
      if i >= |w.asks| then w
      else w.(asks := Remove(w.asks, i), replies := w.replies + [Respond(w.log, c, w.asks[i], asOf)])
    case Receive(i) =>
      if i >= |w.replies| then w
      else ReplyArrives(w.(replies := Remove(w.replies, i)), c, w.replies[i])
    case LoseAsk(i) => if i >= |w.asks| then w else w.(asks := Remove(w.asks, i))
    case LoseReply(i) => if i >= |w.replies| then w else w.(replies := Remove(w.replies, i))
  }

  function Run(w: World, c: Config, events: seq<Event>): World {
    if events == [] then w else Step(Run(w, c, events[..|events| - 1]), c, events[|events| - 1])
  }

  /** The initial window is the newest rows of the room, as of some moment: all of them, or
      as many as the feed holds. */
  lemma TailIsNewest(log: seq<Row>, c: Config, asOf: nat)
    ensures var r, known := Respond(log, c, Tail, asOf), log[..Min(asOf, |log|)];
            r.rows == LastN(known, c.feedMax) && r.start + |r.rows| == |known| && r.reported == |known|
  {
  }

  // ---- what is to be shown ---------------------------------------------------

  /** No committed row the cursor has passed was missed. */
  ghost predicate Safe(w: World) {
    && w.base <= w.cursor <= |w.log|
    && forall k | w.base <= k < w.cursor :: w.log[k] in w.feed.history
  }

  /** The rows between the cursor and the start of a reply have all been accepted, or the
      reply does not move the cursor. */
  ghost predicate NoGap(w: World, r: Reply) {
    || r.start + |r.rows| <= w.cursor
    || r.rows == []
    || forall k | w.cursor <= k < r.start && k < |w.log| :: w.log[k] in w.feed.history
  }

  // ---- invariant -------------------------------------------------------------

  ghost predicate LogOk(log: seq<Row>) {
    && UniqueIds(log)
    && forall k | 0 <= k < |log| :: log[k].num == k + 1 && log[k].id != NO_ID
  }

  ghost predicate FromLog(feed: Feed, log: seq<Row>) {
    forall row | row in feed.history :: row in log
  }

  ghost predicate AskOk(a: Ask, w: World) {
    && w.ready
    && (a.Poll? ==> a.since <= w.cursor)
    && (!a.Tail? ==> a.since <= |w.log|)
  }

  ghost predicate ReplyOk(r: Reply, w: World) {
    && r.start + |r.rows| <= |w.log|
    && r.rows == w.log[r.start..r.start + |r.rows|]
    && (r.ask.Poll? ==> r.start <= w.cursor)
    && (r.ask.Tail? && r.rows == [] ==> r.start == 0)
  }

  ghost predicate Inv(w: World, c: Config) {
    && LogOk(w.log)
    && FromLog(w.feed, w.log)
    && Good(w.feed, c.feedMax)
    && Safe(w)
    && (!w.ready ==> w.cursor == 0 && w.asks == [] && w.replies == [])
    && (w.ready ==> w.load.Idle?)
    && (w.load.Answered? ==> w.load.reply.ask.Tail? && ReplyOk(w.load.reply, w))
    && (forall a | a in w.asks :: AskOk(a, w))
    && (forall r | r in w.replies :: ReplyOk(r, w))
  }

  /** The reply to a catch-up is received only when it opens no gap. */
  ghost predicate Admissible(w: World, e: Event) {
    e.Receive? && e.i < |w.replies| && !w.replies[e.i].ask.Poll? ==> NoGap(w, w.replies[e.i])
  }

  // ---- lemmas on replies -----------------------------------------------------

  lemma {:induction false} HighestOfBlock(log: seq<Row>, cursor: nat, start: nat, end: nat)
    requires LogOk(log) && start <= end <= |log|
    ensures HighestOf(cursor, log[start..end]) == if start < end then Max(cursor, end) else cursor
  {
    if start < end {
      var rows := log[start..end];
      HighestOfBlock(log, cursor, start, end - 1);
      assert rows[..|rows| - 1] == log[start..end - 1];
    }
  }

  /** Offering one log row: it ends up accepted, nothing is lost, nothing foreign enters. */
  lemma AcceptLogRow(feed: Feed, c: Config, log: seq<Row>, row: Row)
    requires c.Valid() && LogOk(log) && FromLog(feed, log) && Good(feed, c.feedMax) && row in log
    ensures var g := Accept(feed, c.feedMax, row);
            && Good(g, c.feedMax) && FromLog(g, log) && row in g.history
            && (forall r | r in feed.history :: r in g.history)
            && (forall r | r in g.history :: r in feed.history || r == row)
  {
    AcceptKeepsGood(feed, c.feedMax, row);
    AcceptReaches(feed, c.feedMax, row);
    var g := Accept(feed, c.feedMax, row);
    assert forall r | r in feed.history :: r in g.history;
    var twin :| twin in g.history && twin.id == row.id;
    assert twin in log;
  }

  lemma {:induction false} AcceptLogRows(feed: Feed, c: Config, log: seq<Row>, rows: seq<Row>)
    requires c.Valid() && LogOk(log) && FromLog(feed, log) && Good(feed, c.feedMax)
    requires forall row | row in rows :: row in log
    ensures var g := AcceptAll(feed, c.feedMax, rows);
            && Good(g, c.feedMax) && FromLog(g, log)
            && (forall r | r in feed.history || r in rows :: r in g.history)
            && (forall r | r in g.history :: r in feed.history || r in rows)
  {
    if rows != [] {
      var front, last := rows[..|rows| - 1], rows[|rows| - 1];
      assert rows == front + [last];
      AcceptLogRows(feed, c, log, front);
      AcceptLogRow(AcceptAll(feed, c.feedMax, front), c, log, last);
    }
  }

  lemma RowsOfBlock(log: seq<Row>, start: nat, rows: seq<Row>)
    requires LogOk(log) && start + |rows| <= |log| && rows == log[start..start + |rows|]
    ensures forall row | row in rows :: row in log
    ensures forall k | 0 <= k < |log| :: log[k] in rows <==> start <= k < start + |rows|
  {
    forall k | 0 <= k < |log|
      ensures log[k] in rows <==> start <= k < start + |rows|
    {
      if start <= k < start + |rows| {
        assert log[k] == rows[k - start];
      }
    }
  }

  lemma FeedAfterReply(feed: Feed, c: Config, log: seq<Row>, r: Reply)
    requires c.Valid() && LogOk(log) && FromLog(feed, log) && Good(feed, c.feedMax)
    requires r.start + |r.rows| <= |log| && r.rows == log[r.start..r.start + |r.rows|]
    ensures var g := Arrive(feed, c.feedMax, AsArrival(r));
            && Good(g, c.feedMax) && FromLog(g, log)
            && (forall row | row in g.history :: row in feed.history || row in r.rows)
            && (forall row | row in feed.history || row in r.rows :: row in g.history)
  {
    RowsOfBlock(log, r.start, r.rows);
    AcceptLogRows(feed, c, log, r.rows);
    ArriveKeepsGood(feed, c.feedMax, AsArrival(r));
    assert Arrive(feed, c.feedMax, AsArrival(r)).history == AcceptAll(feed, c.feedMax, r.rows).history;
  }

  /** The effect of a reply: the cursor moves to its end if that is further, and exactly
      its rows join the accepted ones. */
  lemma ReplyEffect(w: World, c: Config, r: Reply)
    requires c.Valid() && LogOk(w.log) && FromLog(w.feed, w.log) && Good(w.feed, c.feedMax) && ReplyOk(r, w)
    ensures var v := ReplyArrives(w, c, r);
            && Good(v.feed, c.feedMax) && FromLog(v.feed, w.log)
            && v.cursor == (if r.rows == [] then w.cursor else Max(w.cursor, r.start + |r.rows|))
            && (forall row | row in w.feed.history :: row in v.feed.history)
            && (forall k | 0 <= k < |w.log| ::
                  w.log[k] in v.feed.history <==> w.log[k] in w.feed.history || r.start <= k < r.start + |r.rows|)
  {
    hide Good, LogOk, FromLog;
    HighestOfBlock(w.log, w.cursor, r.start, r.start + |r.rows|);
    RowsOfBlock(w.log, r.start, r.rows);
    FeedAfterReply(w.feed, c, w.log, r);
  }

  /** The total a reply leaves: a poll raises it to the room's row count, a load or catch-up
      sets it to that, or to the rows shown when those are more. */
  lemma ReplyTotals(w: World, c: Config, r: Reply)
    requires c.Valid() && Good(w.feed, c.feedMax)
    ensures var v := ReplyArrives(w, c, r).feed;
            v.total == if r.ask.Poll? then Max(w.feed.total + |v.history| - |w.feed.history|, r.reported)
                       else Max(r.reported, |Held(v)|)
  {
    ArrivalReaches(w.feed, c.feedMax, AsArrival(r));
  }

  /** Receiving any reply keeps the cursor safe exactly when there is no gap between the
      cursor and the start of the reply. */
  lemma ReplyKeepsSafeExactly(w: World, c: Config, r: Reply)
    requires c.Valid() && Inv(w, c) && ReplyOk(r, w)
    ensures Safe(ReplyArrives(w, c, r)) <==> NoGap(w, r)
  {
    ReplyEffect(w, c, r);
    var v := ReplyArrives(w, c, r);
    if !NoGap(w, r) {
      var k :| w.cursor <= k < r.start && k < |w.log| && w.log[k] !in w.feed.history;
      assert v.log[k] !in v.feed.history;
    }
  }

  // ---- every step keeps the invariant ----------------------------------------

  lemma CommitKeepsInv(w: World, c: Config, id: Id, content: Content)
    requires c.Valid() && Inv(w, c)
    ensures Inv(Commits(w, id, content), c)
  {
    var v := Commits(w, id, content);
    assert w.log <= v.log;
    forall r | r in v.replies ensures ReplyOk(r, v) {
      assert ReplyOk(r, w);
    }
    forall a | a in v.asks ensures AskOk(a, v) {
      assert AskOk(a, w);
    }
  }

  lemma FrameKeepsInv(w: World, c: Config, k: nat)
    requires c.Valid() && Inv(w, c) && k < |w.log|
    ensures Inv(FrameArrives(w, c, w.log[k]), c)
  {
    var v := FrameArrives(w, c, w.log[k]);
    AcceptLogRow(w.feed, c, w.log, w.log[k]);
    forall a | a in v.asks ensures AskOk(a, v) {
      assert AskOk(a, w);
    }
    forall r | r in v.replies ensures ReplyOk(r, v) {
      assert ReplyOk(r, w);
    }
  }

  lemma AnswerKeepsInv(w: World, c: Config, i: nat, asOf: nat)
    requires c.Valid() && Inv(w, c) && i < |w.asks|
    ensures Inv(Step(w, c, Answer(i, asOf)), c)
  {
    hide Good, FromLog, LogOk;
    var v := Step(w, c, Answer(i, asOf));
    assert AskOk(w.asks[i], w);
    assert ReplyOk(Respond(w.log, c, w.asks[i], asOf), v);
    forall a | a in v.asks ensures AskOk(a, v) {
      assert a in w.asks;
    }
    forall r | r in v.replies ensures ReplyOk(r, v) {
      if r in w.replies {
        assert ReplyOk(r, w);
      }
    }
  }

  /** The cursor only moves forward, so what was in order about messages in flight stays so. */
  lemma InFlightStays(w: World, v: World, c: Config)
    requires Inv(w, c) && v.log == w.log && v.cursor >= w.cursor && v.ready
    requires forall a | a in v.asks :: a in w.asks
    requires forall r | r in v.replies :: r in w.replies
    ensures forall a | a in v.asks :: AskOk(a, v)
    ensures forall r | r in v.replies :: ReplyOk(r, v)
  {
    forall a | a in v.asks ensures AskOk(a, v) {
      assert AskOk(a, w);
    }
    forall r | r in v.replies ensures ReplyOk(r, v) {
      assert ReplyOk(r, w);
    }
  }

  lemma ReceiveKeepsInv(w: World, c: Config, i: nat)
    requires c.Valid() && Inv(w, c) && i < |w.replies| && Admissible(w, Receive(i))
    ensures Inv(Step(w, c, Receive(i)), c)
  {
    var r := w.replies[i];
    var v := Step(w, c, Receive(i));
    assert ReplyOk(r, w);
    assert v == ReplyArrives(w, c, r).(replies := Remove(w.replies, i));
    ReplyEffect(w, c, r);
    ReplyKeepsSafeExactly(w, c, r);
    InFlightStays(w, v, c);
  }

  lemma ReceiveLoadKeepsInv(w: World, c: Config)
    requires c.Valid() && Inv(w, c) && w.load.Answered?
    ensures Inv(Step(w, c, ReceiveLoad), c)
  {
    ReplyEffect(w, c, w.load.reply);
    InFlightStays(w, Step(w, c, ReceiveLoad), c);
  }

  lemma StepKeepsInv(w: World, c: Config, e: Event)
    requires c.Valid() && Inv(w, c) && Admissible(w, e)
    ensures Inv(Step(w, c, e), c)
  {
    hide Good, FromLog, LogOk;
    match e
    case Commit(id, content) => CommitKeepsInv(w, c, id, content);
    case Frame(k) => if k < |w.log| { FrameKeepsInv(w, c, k); }
    case Answer(i, asOf) => if i < |w.asks| { AnswerKeepsInv(w, c, i, asOf); }
    case Receive(i) => if i < |w.replies| { ReceiveKeepsInv(w, c, i); }
    case ReceiveLoad => if w.load.Answered? { ReceiveLoadKeepsInv(w, c); }
    case _ =>
      var v := Step(w, c, e);
      forall a | a in v.asks ensures AskOk(a, v) {
        if a in w.asks { assert AskOk(a, w); }
        else if a.CatchUp? { LastNumInLog(w, c); }
      }
      forall r | r in v.replies ensures ReplyOk(r, v) {
        assert r in w.replies && ReplyOk(r, w);
      }
  }

  lemma LastNumInLog(w: World, c: Config)
    requires Inv(w, c)
    ensures w.feed.lastNum <= |w.log|
  {
    if w.feed.history != [] {
      var top :| top in w.feed.history && top.num == w.feed.lastNum;
      assert top in w.log;
    }
  }

  /** On a reconnect a replica that holds nothing asks for the newest rows, and any other for
      those after the highest number it holds. */
  lemma CatchUpAsks(w: World, c: Config)
    requires Inv(w, c) && w.ready
    ensures var v := Step(w, c, IssueCatchUp);
            && v == w.(asks := v.asks) && |v.asks| == |w.asks| + 1 && v.asks[..|w.asks|] == w.asks
            && var a := v.asks[|w.asks|];
               if w.feed.history == [] then a.Tail?
               else a.CatchUp? && (exists row :: row in w.feed.history && row.num == a.since)
                    && forall row | row in w.feed.history :: row.num <= a.since
  {
    hide Safe, AskOk, ReplyOk;
    if w.feed.history != [] {
      var top :| top in w.feed.history && top.num == w.feed.lastNum;
      assert top in w.log;
    }
  }

  /** The first load, asked and answered as of any moment, makes the replica ready with the
      newest rows of that moment accepted and its cursor at their end. */
  lemma FirstLoad(w: World, c: Config, asOf: nat)
    requires c.Valid() && Inv(w, c) && !w.ready && w.load.Idle?
    ensures var n := Min(asOf, |w.log|);
            var asked := Step(w, c, IssueLoad);
            var v := Step(Step(asked, c, AnswerLoad(asOf)), c, ReceiveLoad);
            && Inv(v, c) && v.ready && v.load.Idle? && v.log == w.log
            && v.base == Max(0, n - c.feedMax) && v.cursor == n
            && (forall k | v.base <= k < n :: w.log[k] in v.feed.history)
            && (forall row | row in w.feed.history :: row in v.feed.history)
  {
    hide Good, FromLog, LogOk, Safe;
    var asked := Step(w, c, IssueLoad);
    var answered := Step(asked, c, AnswerLoad(asOf));
    StepKeepsInv(w, c, IssueLoad);
    LoadAnswered(asked, c, asOf);
    StepKeepsInv(answered, c, ReceiveLoad);
    ReplyEffect(answered, c, answered.load.reply);
    TailIsNewest(w.log, c, asOf);
  }

  lemma LoadAnswered(w: World, c: Config, asOf: nat)
    requires c.Valid() && Inv(w, c) && w.load.Asked?
    ensures Inv(Step(w, c, AnswerLoad(asOf)), c)
  {
    StepKeepsInv(w, c, AnswerLoad(asOf));
  }

  /** A message is answered once, received once, or lost; nothing else takes it away. */
  lemma MessagesMove(w: World, c: Config, i: nat, asOf: nat)
    ensures i < |w.asks| ==>
              && Step(w, c, LoseAsk(i)) == w.(asks := Remove(w.asks, i))
              && Step(w, c, Answer(i, asOf)).asks == Remove(w.asks, i)
              && Step(w, c, Answer(i, asOf)).replies == w.replies + [Respond(w.log, c, w.asks[i], asOf)]
    ensures i < |w.replies| ==>
              && Step(w, c, LoseReply(i)) == w.(replies := Remove(w.replies, i))
              && Step(w, c, Receive(i)).replies == Remove(w.replies, i)
    ensures Step(w, c, LoseLoad) == w.(load := Idle)
  {
  }

  // ---- main results ----------------------------------------------------------

  /** Every event of a run is admissible in the state it meets. */
  ghost predicate AdmissibleFrom(w: World, c: Config, events: seq<Event>) {
    events == []
    || (var front, e := events[..|events| - 1], events[|events| - 1];
        AdmissibleFrom(w, c, front) && Admissible(Run(w, c, front), e))
  }

  /** Cursor safety.  In every run of commits, frames lost, duplicated or reordered, the
      initial load and any number of outstanding polls with stale cursors, where catch-up
      replies open no gap, every committed row with base < num <= cursor was accepted. */
  lemma {:induction false} CursorSafety(c: Config, events: seq<Event>)
    requires c.Valid() && AdmissibleFrom(INIT, c, events)
    ensures Inv(Run(INIT, c, events), c)
    ensures Safe(Run(INIT, c, events))
  {
    hide Admissible, Step;
    if events != [] {
      var front := events[..|events| - 1];
      CursorSafety(c, front);
      StepKeepsInv(Run(INIT, c, front), c, events[|events| - 1]);
    }
  }

  /** The cursor is safe at every moment of the run. */
  ghost predicate SafeThroughout(c: Config, events: seq<Event>) {
    Safe(Run(INIT, c, events)) && (events != [] ==> SafeThroughout(c, events[..|events| - 1]))
  }

  /** A reply that opens a gap makes the cursor unsafe at once. */
  lemma GapIsUnsafe(w: World, c: Config, e: Event)
    requires c.Valid() && Inv(w, c) && !Admissible(w, e)
    ensures !Safe(Step(w, c, e))
  {
    hide Good, LogOk, FromLog;
    var r := w.replies[e.i];
    assert r in w.replies && ReplyOk(r, w);
    ReplyKeepsSafeExactly(w, c, r);
    var v := Step(w, c, e);
    assert v == ReplyArrives(w, c, r).(replies := Remove(w.replies, e.i));
  }

  lemma UnlessUnsafe(w: World, c: Config, e: Event)
    requires c.Valid() && Inv(w, c)
    ensures Admissible(w, e) || !Safe(Step(w, c, e))
  {
    if !Admissible(w, e) {
      GapIsUnsafe(w, c, e);
    }
  }

  /** The cursor is safe at every moment of a run if and only if no catch-up reply in it
      opened a gap when it arrived. */
  lemma {:induction false} CursorSafetyExactly(c: Config, events: seq<Event>)
    requires c.Valid()
    ensures SafeThroughout(c, events) <==> AdmissibleFrom(INIT, c, events)
  {
    hide Admissible, Safe, Inv, Step;
    if events == [] {
      CursorSafety(c, []);
    } else {
      var front, e := events[..|events| - 1], events[|events| - 1];
      CursorSafetyExactly(c, front);
      if AdmissibleFrom(INIT, c, events) {
        CursorSafety(c, events);
      }
      if AdmissibleFrom(INIT, c, front) {
        CursorSafety(c, front);
        UnlessUnsafe(Run(INIT, c, front), c, e);
      }
    }
  }

  /** The guard a caller can check before it asks: the newest number held is the cursor. */
  predicate Guarded(w: World, e: Event) {
    e.IssueCatchUp? ==> w.feed.lastNum == w.cursor > 0
  }

  /** Under the guard every catch-up starts at or before the cursor. */
  ghost predicate GuardInv(w: World, c: Config) {
    && Inv(w, c)
    && (forall a | a in w.asks :: !a.Tail? && a.since <= w.cursor)
    && (forall r | r in w.replies :: !r.ask.Tail? && r.start <= w.cursor)
  }

  /** So no reply that arrives can open a gap. */
  lemma GuardedIsAdmissible(w: World, c: Config, e: Event)
    requires GuardInv(w, c)
    ensures Admissible(w, e)
  {
    hide Inv;
    if e.Receive? && e.i < |w.replies| {
      assert w.replies[e.i] in w.replies;
    }
  }

  lemma GuardKept(w: World, c: Config, e: Event)
    requires c.Valid() && GuardInv(w, c) && Guarded(w, e)
    ensures GuardInv(Step(w, c, e), c)
  {
    hide Good, FromLog, LogOk, Safe;
    var v := Step(w, c, e);
    StepKeepsInv(w, c, e);
    CursorMovesForward(w, c, e);
    forall a | a in v.asks ensures !a.Tail? && a.since <= v.cursor {
      if a in w.asks {} else {}
    }
    forall r | r in v.replies ensures !r.ask.Tail? && r.start <= v.cursor {
      if r in w.replies {} else {
        assert e.Answer? && w.asks[e.i] in w.asks;
      }
    }
  }

  lemma CursorMovesForward(w: World, c: Config, e: Event)
    requires c.Valid() && Inv(w, c)
    ensures Step(w, c, e).cursor >= w.cursor
    ensures forall row | row in w.feed.history :: row in Step(w, c, e).feed.history
  {
    match e
    case Frame(k) => if k < |w.log| { AcceptLogRow(w.feed, c, w.log, w.log[k]); }
    case Receive(i) =>
      if i < |w.replies| {
        assert ReplyOk(w.replies[i], w);
        ReplyEffect(w, c, w.replies[i]);
      }
    case ReceiveLoad =>
      if w.load.Answered? {
        ReplyEffect(w, c, w.load.reply);
      }
    case _ =>
  }

  predicate GuardedRun(c: Config, events: seq<Event>) {
    events == []
    || (var front, e := events[..|events| - 1], events[|events| - 1];
        GuardedRun(c, front) && Guarded(Run(INIT, c, front), e))
  }

  /** A backend that asks to catch up only while its newest number is its cursor never
      loses a row, however late the answers come. */
  lemma {:induction false} GuardedCatchUpIsSafe(c: Config, events: seq<Event>)
    requires c.Valid() && GuardedRun(c, events)
    ensures GuardInv(Run(INIT, c, events), c)
    ensures Safe(Run(INIT, c, events))
  {
    hide Step, Guarded;
    if events != [] {
      var front := events[..|events| - 1];
      GuardedCatchUpIsSafe(c, front);
      GuardKept(Run(INIT, c, front), c, events[|events| - 1]);
    }
  }

  // ---- convergence -----------------------------------------------------------

  /** A poll asked at cursor `c` and answered since the last append moves the cursor to at
      least min(c + page, N). */
  lemma PollAdvances(w: World, c: Config, r: Reply)
    requires c.Valid() && Inv(w, c) && ReplyOk(r, w)
    requires r == Respond(w.log, c, Poll(r.start), 0)
    ensures ReplyArrives(w, c, r).cursor >= Min(r.start + c.PollPage(), |w.log|)
  {
    ReplyEffect(w, c, r);
  }

  /** One successful poll: asked, answered, received. */
  function PollRound(w: World, c: Config): World {
    var asked := Step(w, c, IssuePoll);
    var answered := Step(asked, c, Answer(|w.asks|, 0));
    Step(answered, c, Receive(|w.replies|))
  }

  /** Asking, answering and receiving a poll is never barred: its reply opens no gap. */
  lemma PollRoundAdvances(w: World, c: Config)
    requires c.Valid() && Inv(w, c) && w.ready
    ensures var v := PollRound(w, c);
            && Inv(v, c) && v.ready && v.log == w.log && v.base == w.base
            && v.cursor >= Min(w.cursor + c.PollPage(), |w.log|)
  {
    hide Good, FromLog, LogOk, Safe;
    var asked := Step(w, c, IssuePoll);
    var answered := Step(asked, c, Answer(|w.asks|, 0));
    StepKeepsInv(w, c, IssuePoll);
    StepKeepsInv(asked, c, Answer(|w.asks|, 0));
    var r := answered.replies[|w.replies|];
    assert r == Respond(w.log, c, Poll(w.cursor), 0);
    assert ReplyOk(r, answered);
    StepKeepsInv(answered, c, Receive(|w.replies|));
    PollAdvances(answered, c, r);
  }

  /** Anything may happen between two successful polls except an append: frames, losses,
      further polls, reconnects that catch up; only a catch-up reply must open no gap in
      the state it meets. */
  ghost predicate Quiet(w: World, c: Config, events: seq<Event>) {
    AdmissibleFrom(w, c, events) && forall e | e in events :: !e.Commit?
  }

  lemma StillReady(w: World, c: Config, e: Event)
    requires w.ready && !e.Commit?
    ensures Step(w, c, e).ready && Step(w, c, e).log == w.log
  {
  }

  lemma {:induction false} QuietRun(w: World, c: Config, events: seq<Event>)
    requires c.Valid() && Inv(w, c) && w.ready && Quiet(w, c, events)
    ensures var v := Run(w, c, events);
            Inv(v, c) && v.ready && v.log == w.log && v.cursor >= w.cursor
  {
    hide Inv, Step, Admissible;
    if events != [] {
      var front, e := events[..|events| - 1], events[|events| - 1];
      assert e in events && forall x | x in front :: x in events;
      QuietRun(w, c, front);
      StepKeepsInv(Run(w, c, front), c, e);
      CursorMovesForward(Run(w, c, front), c, e);
      StillReady(Run(w, c, front), c, e);
    }
  }

  /** Successful polls with arbitrary other traffic before each. */
  function Rounds(w: World, c: Config, noise: seq<seq<Event>>): World {
    if noise == [] then w
    else PollRound(Run(Rounds(w, c, noise[..|noise| - 1]), c, noise[|noise| - 1]), c)
  }

  ghost predicate QuietRounds(w: World, c: Config, noise: seq<seq<Event>>) {
    noise == []
    || (var front, last := noise[..|noise| - 1], noise[|noise| - 1];
        QuietRounds(w, c, front) && Quiet(Rounds(w, c, front), c, last))
  }

  lemma OneMoreTime(n: nat, p: nat)
    ensures (n + 1) * p == n * p + p
  {
  }

  lemma {:induction false} RoundsAdvance(w: World, c: Config, noise: seq<seq<Event>>)
    requires c.Valid() && Inv(w, c) && w.ready && QuietRounds(w, c, noise)
    ensures var v := Rounds(w, c, noise);
            && Inv(v, c) && v.ready && v.log == w.log
            && v.cursor >= Min(w.cursor + |noise| * c.PollPage(), |w.log|)
  {
    hide Inv, PollRound, Quiet;
    if noise != [] {
      var front, last := noise[..|noise| - 1], noise[|noise| - 1];
      RoundsAdvance(w, c, front);
      var u := Rounds(w, c, front);
      QuietRun(u, c, last);
      var v := Run(u, c, last);
      PollRoundAdvances(v, c);
      OneMoreTime(|front|, c.PollPage());
    }
  }

  /** Convergence: once appends stop at N, enough successful polls bring the cursor to N,
      whatever else is lost, repeated or reordered meanwhile and whatever catches up
      without opening a gap, and then every row in (base, N] has been accepted. */
  lemma Converges(w: World, c: Config, noise: seq<seq<Event>>)
    requires c.Valid() && Inv(w, c) && w.ready && QuietRounds(w, c, noise)
    requires |noise| * c.PollPage() >= |w.log| - w.cursor
    ensures var v := Rounds(w, c, noise);
            && Inv(v, c) && v.log == w.log && v.cursor == |w.log|
            && forall k | v.base <= k < |v.log| :: v.log[k] in v.feed.history
  {
    RoundsAdvance(w, c, noise);
  }

  // ---- the unguarded catch-up loses a row ------------------------------------

  lemma RunPush(w: World, c: Config, events: seq<Event>, e: Event)
    ensures Run(w, c, events + [e]) == Step(Run(w, c, events), c, e)
  {
    assert (events + [e])[..|events|] == events;
  }

  const SMALL := Config(4, 4, 4)
  const ROW1 := Row(1, PUBLIC, 1, 11)
  const ROW2 := Row(2, PUBLIC, 2, 12)
  const ROW3 := Row(3, PUBLIC, 3, 13)

  /** An empty room is loaded; of two messages only the second one's frame arrives. */
  function HalfHeard(): seq<Event> {
    [] + [IssueLoad] + [AnswerLoad(0)] + [ReceiveLoad]
    + [Commit(1, 11)] + [Commit(2, 12)] + [Frame(1)]
  }

  /** The socket reconnects and catches up from row 2 while a third message is stored. */
  function LostRowRun(): seq<Event> {
    HalfHeard() + [IssueCatchUp] + [Commit(3, 13)] + [Answer(0, 0)] + [Receive(0)]
  }

  lemma AfterHalfHeard()
    ensures Run(INIT, SMALL, HalfHeard())
            == INIT.(ready := true, log := [ROW1, ROW2], feed := Feed([ROW2], [2], 1, 2, 1))
  {
    var e1: seq<Event> := [] + [IssueLoad];
    var e2 := e1 + [AnswerLoad(0)];
    var e3 := e2 + [ReceiveLoad];
    var e4 := e3 + [Commit(1, 11)];
    var e5 := e4 + [Commit(2, 12)];
    RunPush(INIT, SMALL, [], IssueLoad);
    RunPush(INIT, SMALL, e1, AnswerLoad(0));
    assert Run(INIT, SMALL, e2) == INIT.(load := Answered(Reply(Tail, 0, [], 0)));
    RunPush(INIT, SMALL, e2, ReceiveLoad);
    assert Run(INIT, SMALL, e3) == INIT.(ready := true);
    RunPush(INIT, SMALL, e3, Commit(1, 11));
    RunPush(INIT, SMALL, e4, Commit(2, 12));
    assert Run(INIT, SMALL, e5) == INIT.(ready := true, log := [ROW1, ROW2]);
    RunPush(INIT, SMALL, e5, Frame(1));
  }

  lemma AfterReconnect()
    ensures Run(INIT, SMALL, HalfHeard() + [IssueCatchUp] + [Commit(3, 13)])
            == Run(INIT, SMALL, HalfHeard()).(log := [ROW1, ROW2, ROW3], asks := [CatchUp(2)])
  {
    var e6 := HalfHeard();
    AfterHalfHeard();
    RunPush(INIT, SMALL, e6, IssueCatchUp);
    RunPush(INIT, SMALL, e6 + [IssueCatchUp], Commit(3, 13));
  }

  /** The cursor jumps to 3 over row 1, which no later poll will ask for. */
  lemma CatchUpCanLoseARow()
    ensures var w := Run(INIT, SMALL, LostRowRun());
            && w.base == 0 && w.cursor == 3 && |w.log| == 3
            && w.log[0] !in w.feed.history && !Safe(w)
  {
    var e8 := HalfHeard() + [IssueCatchUp] + [Commit(3, 13)];
    AfterHalfHeard();
    AfterReconnect();
    var w8 := Run(INIT, SMALL, e8);
    RunPush(INIT, SMALL, e8, Answer(0, 0));
    RunPush(INIT, SMALL, e8 + [Answer(0, 0)], Receive(0));
    assert Respond(w8.log, SMALL, CatchUp(2), 0) == Reply(CatchUp(2), 2, [ROW3], 3);
    TakeOne(Step(w8, SMALL, Answer(0, 0)));
    assert ROW1 !in [ROW2, ROW3];
  }

  lemma TakeOne(w: World)
    requires w.feed == Feed([ROW2], [2], 1, 2, 1) && w.cursor == 0
    requires w.replies == [Reply(CatchUp(2), 2, [ROW3], 3)]
    ensures var v := Step(w, SMALL, Receive(0));
            v.feed.history == [ROW2, ROW3] && v.cursor == 3 && v.log == w.log && v.base == w.base
  {
    assert [ROW3][..0] == [];
    assert AcceptAll(w.feed, 4, []) == w.feed;
    assert AcceptAll(w.feed, 4, [ROW3]) == Accept(w.feed, 4, ROW3);
    assert HighestOf(0, [ROW3]) == 3;
  }
}
