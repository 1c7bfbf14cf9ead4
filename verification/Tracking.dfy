/**
 * Following the log without a gap (app/server.js:510-547, 555-568, 597-617): how far the
 * cursor keeps up with the frames, and what the replica shows while rows reach it in order.
 */
module Tracking {
  import opened Common
  import opened MessageTable
  import opened FeedModel
  import opened Replica

  // ---- frames in order -------------------------------------------------------

  /** How far the frames of a run carry on from row `first` without one missing: a committed
      row's frame counts when every earlier one has been heard, whatever else arrives and
      however often. */
  function Heard(w: World, c: Config, first: nat, events: seq<Event>): nat {
    if events == [] then first
    else
      var front, e := events[..|events| - 1], events[|events| - 1];
      var h := Heard(w, c, first, front);
      if e.Frame? && e.k == h < |Run(w, c, front).log| then h + 1 else h
  }

  /** The rows whose frames are delivered in a run, in order of delivery. */
  function Delivered(w: World, c: Config, events: seq<Event>): seq<nat> {
    if events == [] then []
    else
      var front, e := events[..|events| - 1], events[|events| - 1];
      Delivered(w, c, front) + if e.Frame? && e.k < |Run(w, c, front).log| then [e.k] else []
  }

  /** Each one more than the one before, from `first` on. */
  ghost predicate Counting(rows: seq<nat>, first: nat) {
    forall j | 0 <= j < |rows| :: rows[j] == first + j
  }

  /** Frames of rows delivered each once and in order are all heard. */
  lemma {:induction false} InOrderIsHeard(w: World, c: Config, first: nat, events: seq<Event>)
    requires Counting(Delivered(w, c, events), first)
    ensures Heard(w, c, first, events) == first + |Delivered(w, c, events)|
  {
    hide Run;
    if events != [] {
      var front, e := events[..|events| - 1], events[|events| - 1];
      var all, before := Delivered(w, c, events), Delivered(w, c, front);
      assert forall j | 0 <= j < |before| :: before[j] == all[j];
      InOrderIsHeard(w, c, first, front);
      if e.Frame? && e.k < |Run(w, c, front).log| {
        assert all[|before|] == e.k;
      }
    }
  }

  lemma FrameMovesCursor(w: World, c: Config, k: nat)
    requires w.ready && k < |w.log| && LogOk(w.log) && w.cursor >= k
    ensures Step(w, c, Frame(k)).cursor >= k + 1
  {
  }

  lemma ReadyStays(w: World, c: Config, e: Event)
    requires w.ready
    ensures Step(w, c, e).ready
  {
  }

  /** Whatever else goes on, commits, polls, answers and reconnects included: the cursor is
      at least as far as the frames were heard without a gap. */
  lemma {:induction false} CursorFollowsFrames(w: World, c: Config, first: nat, events: seq<Event>)
    requires c.Valid() && Inv(w, c) && w.ready && w.cursor >= first && AdmissibleFrom(w, c, events)
    ensures var v := Run(w, c, events); Inv(v, c) && v.ready && v.cursor >= Heard(w, c, first, events)
  {
    hide Step, Admissible, Good, FromLog, LogOk, Safe, Inv;
    if events != [] {
      var front, e := events[..|events| - 1], events[|events| - 1];
      CursorFollowsFrames(w, c, first, front);
      var v := Run(w, c, front);
      StepKeepsInv(v, c, e);
      CursorMovesForward(v, c, e);
      ReadyStays(v, c, e);
      if e.Frame? && e.k < |v.log| && v.cursor >= e.k {
        LogOfInv(v, c);
        FrameMovesCursor(v, c, e.k);
      }
    }
  }

  lemma LogOfInv(w: World, c: Config)
    requires Inv(w, c)
    ensures LogOk(w.log) && w.cursor <= |w.log|
  {
  }

  /** While no frame is lost or reordered the cursor tracks the log: once the frames of the
      rows from the cursor on have been delivered, each once and in order, interleaved with
      any other traffic and committed in any transactions, the cursor is the log's end and
      a poll has nothing to return. */
  lemma CursorTracksLog(w: World, c: Config, events: seq<Event>)
    requires c.Valid() && Inv(w, c) && w.ready && AdmissibleFrom(w, c, events)
    requires Counting(Delivered(w, c, events), w.cursor)
    requires w.cursor + |Delivered(w, c, events)| == |Run(w, c, events).log|
    ensures var v := Run(w, c, events);
            && Inv(v, c) && v.ready && v.cursor == |v.log|
            && Respond(v.log, c, Poll(v.cursor), 0).rows == []
  {
    hide Run, Delivered, Good, FromLog, LogOk;
    InOrderIsHeard(w, c, w.cursor, events);
    CursorFollowsFrames(w, c, w.cursor, events);
  }

  // ---- rows in order --------------------------------------------------------

  /** The accepted history is the stretch of the log that begins where the initial window
      began. */
  ghost predicate Tracked(w: World) {
    && w.base + |w.feed.history| <= |w.log|
    && w.feed.history == w.log[w.base..w.base + |w.feed.history|]
  }

  /** Rows start .. end - 1 carry on where the history ends, or repeat only rows so recent
      that the id set still guards them. */
  predicate CarriesOn(w: World, c: Config, start: nat) {
    w.base <= start <= w.base + |w.feed.history| <= start + c.feedMax
  }

  /** What arrives in order: the next row or a recent one, by frame or by reply. */
  predicate InOrder(w: World, c: Config, e: Event) {
    match e
    case Frame(k) => k < |w.log| ==> CarriesOn(w, c, k)
    case Receive(i) => i < |w.replies| && w.replies[i].rows != [] ==> CarriesOn(w, c, w.replies[i].start)
    case _ => true
  }

  // ---- one row ---------------------------------------------------------------

  /** A recent row is dropped. */
  lemma RecentIsDropped(feed: Feed, c: Config, log: seq<Row>, base: nat, k: nat)
    requires Good(feed, c.feedMax) && base + |feed.history| <= |log|
    requires feed.history == log[base..base + |feed.history|]
    requires base <= k < base + |feed.history| <= k + c.feedMax
    ensures Accept(feed, c.feedMax, log[k]) == feed
  {
    assert feed.history[k - base] == log[k];
    RedeliveryDropped(feed, c.feedMax, k - base);
  }

  /** The next row is taken. */
  lemma NextIsTaken(feed: Feed, c: Config, log: seq<Row>, base: nat)
    requires Good(feed, c.feedMax) && LogOk(log) && base + |feed.history| < |log|
    requires feed.history == log[base..base + |feed.history|]
    ensures Accept(feed, c.feedMax, log[base + |feed.history|]).history == log[base..base + |feed.history| + 1]
  {
    var n := base + |feed.history|;
    forall i | 0 <= i < |feed.seen| ensures feed.seen[i] != log[n].id {
      var j := |feed.history| - |feed.seen| + i;
      assert feed.seen[i] == feed.history[j].id && feed.history[j] == log[base + j];
    }
    assert log[base..n + 1] == log[base..n] + [log[n]];
  }

  // ---- a block of rows -------------------------------------------------------

  lemma {:induction false} BlockCarriesOn(feed: Feed, c: Config, log: seq<Row>, base: nat, start: nat, end: nat)
    requires c.Valid() && Good(feed, c.feedMax) && LogOk(log) && base + |feed.history| <= |log|
    requires feed.history == log[base..base + |feed.history|]
    requires base <= start <= base + |feed.history| <= start + c.feedMax && start <= end <= |log|
    ensures Good(AcceptAll(feed, c.feedMax, log[start..end]), c.feedMax)
    ensures AcceptAll(feed, c.feedMax, log[start..end]).history == log[base..Max(base + |feed.history|, end)]
    decreases end
  {
    hide Good, LogOk, Accept, AcceptAll;
    if start == end {
      NoRows(feed, c, log, start);
    } else {
      BlockCarriesOn(feed, c, log, base, start, end - 1);
      OneMoreRow(feed, c, log, start, end);
      var g := AcceptAll(feed, c.feedMax, log[start..end - 1]);
      AcceptKeepsGood(g, c.feedMax, log[end - 1]);
      if end - 1 < base + |feed.history| {
        RecentIsDropped(g, c, log, base, end - 1);
      } else {
        NextIsTaken(g, c, log, base);
      }
    }
  }

  lemma NoRows(feed: Feed, c: Config, log: seq<Row>, start: nat)
    requires start <= |log|
    ensures AcceptAll(feed, c.feedMax, log[start..start]) == feed
  {
  }

  lemma OneMoreRow(feed: Feed, c: Config, log: seq<Row>, start: nat, end: nat)
    requires start < end <= |log|
    ensures AcceptAll(feed, c.feedMax, log[start..end])
            == Accept(AcceptAll(feed, c.feedMax, log[start..end - 1]), c.feedMax, log[end - 1])
  {
    hide Accept;
    assert log[start..end][..end - start - 1] == log[start..end - 1];
  }

  // ---- every step, every run -------------------------------------------------

  lemma LongerLog(w: World, v: World)
    requires Tracked(w) && w.log <= v.log && v.base == w.base && v.feed.history == w.feed.history
    ensures Tracked(v)
  {
  }

  lemma FrameKeepsTracked(w: World, c: Config, k: nat)
    requires c.Valid() && Inv(w, c) && Tracked(w) && k < |w.log| && CarriesOn(w, c, k)
    ensures Tracked(Step(w, c, Frame(k)))
  {
    hide Good, Accept, Safe;
    if k < w.base + |w.feed.history| {
      RecentIsDropped(w.feed, c, w.log, w.base, k);
    } else {
      NextIsTaken(w.feed, c, w.log, w.base);
    }
  }

  lemma ReceiveKeepsTracked(w: World, c: Config, i: nat)
    requires c.Valid() && Inv(w, c) && Tracked(w) && i < |w.replies|
    requires w.replies[i].rows != [] ==> CarriesOn(w, c, w.replies[i].start)
    ensures Tracked(Step(w, c, Receive(i)))
  {
    hide Good, Safe, LogOk, FromLog;
    var r := w.replies[i];
    assert r in w.replies && ReplyOk(r, w);
    var v := Step(w, c, Receive(i));
    assert v.feed.history == AcceptAll(w.feed, c.feedMax, r.rows).history;
    assert v.log == w.log && v.base == w.base;
    if r.rows != [] {
      BlockCarriesOn(w.feed, c, w.log, w.base, r.start, r.start + |r.rows|);
    }
  }

  lemma StepKeepsTracked(w: World, c: Config, e: Event)
    requires c.Valid() && Inv(w, c) && w.ready && Tracked(w) && InOrder(w, c, e)
    ensures Tracked(Step(w, c, e))
  {
    hide Good, Safe, LogOk, FromLog, Tracked;
    match e
    case Frame(k) => if k < |w.log| { FrameKeepsTracked(w, c, k); }
    case Receive(i) => if i < |w.replies| { ReceiveKeepsTracked(w, c, i); }
    case ReceiveLoad =>
    case _ => LongerLog(w, Step(w, c, e));
  }

  predicate InOrderRun(w: World, c: Config, events: seq<Event>) {
    events == []
    || (var front, e := events[..|events| - 1], events[|events| - 1];
        InOrderRun(w, c, front) && InOrder(Run(w, c, front), c, e))
  }

  lemma {:induction false} TrackedInEveryRun(w: World, c: Config, events: seq<Event>)
    requires c.Valid() && Inv(w, c) && w.ready && Tracked(w)
    requires AdmissibleFrom(w, c, events) && InOrderRun(w, c, events)
    ensures var v := Run(w, c, events); Inv(v, c) && v.ready && Tracked(v)
  {
    hide Step, Admissible, InOrder, Inv, Tracked;
    if events != [] {
      var front, e := events[..|events| - 1], events[|events| - 1];
      TrackedInEveryRun(w, c, front);
      StepKeepsInv(Run(w, c, front), c, e);
      ReadyStays(Run(w, c, front), c, e);
      StepKeepsTracked(Run(w, c, front), c, e);
    }
  }

  // ---- main results ----------------------------------------------------------

  /** The initial load of a replica that has heard nothing yet makes its history a stretch
      of the log. */
  lemma LoadIsTracked(w: World, c: Config)
    requires c.Valid() && Inv(w, c) && w.load.Answered? && w.feed.history == []
    ensures Tracked(Step(w, c, ReceiveLoad))
  {
    hide Good, LogOk, Safe, FromLog;
    var r := w.load.reply;
    var v := Step(w, c, ReceiveLoad);
    assert r.rows == w.log[r.start..r.start + |r.rows|];
    BlockCarriesOn(w.feed, c, w.log, r.start, r.start, r.start + |r.rows|);
    assert v.feed.history == AcceptAll(w.feed, c.feedMax, r.rows).history;
  }

  /** A cursor at the log's end leaves nothing unheard. */
  lemma TrackedToTheEnd(w: World, c: Config)
    requires Inv(w, c) && Tracked(w) && w.cursor == |w.log|
    ensures w.feed.history == w.log[w.base..]
  {
    hide Good, LogOk, FromLog;
    NextIsUnheard(w);
  }

  lemma NextIsUnheard(w: World)
    requires LogOk(w.log) && Tracked(w)
    ensures var n := w.base + |w.feed.history|; n < |w.log| ==> w.log[n] !in w.feed.history
  {
    var n := w.base + |w.feed.history|;
    if n < |w.log| {
      forall j | 0 <= j < |w.feed.history| ensures w.feed.history[j] != w.log[n] {
        assert w.feed.history[j] == w.log[w.base + j];
      }
    }
  }

  /** While rows reach a replica in order, re-delivered recent ones aside, the rows it shows
      are a run of the log in log order; and when its cursor is at the log's end they are
      exactly the newest rows of the room. */
  lemma ShowsTheNewest(w: World, c: Config, events: seq<Event>)
    requires c.Valid() && Inv(w, c) && w.ready && Tracked(w)
    requires AdmissibleFrom(w, c, events) && InOrderRun(w, c, events)
    ensures var v := Run(w, c, events);
            && Tracked(v)
            && Held(v.feed) == LastN(v.log[v.base..v.base + |v.feed.history|], v.feed.count)
            && (v.cursor == |v.log| ==> Held(v.feed) == LastN(v.log, v.feed.count))
  {
    hide Run, Inv;
    TrackedInEveryRun(w, c, events);
    var v := Run(w, c, events);
    if v.cursor == |v.log| {
      TrackedToTheEnd(v, c);
      HeldWithin(v, c);
      LastOfSuffix(v.log, v.base, v.feed.count);
    }
  }

  lemma HeldWithin(w: World, c: Config)
    requires Inv(w, c)
    ensures w.feed.count <= |w.feed.history|
  {
  }

  lemma LastOfSuffix(log: seq<Row>, base: nat, n: nat)
    requires base <= |log| && n <= |log| - base
    ensures LastN(log[base..], n) == LastN(log, n)
  {
  }
}
