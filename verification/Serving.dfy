/**
 * One admitted request, statement by statement (lb/loadbalancer.py:1394-1486): pick, try
 * to connect, eject and pick again on failure, forward, and give the slot back.  It runs
 * against the pool and the gates as the balancer keeps them; each ejection recounts the
 * routable backends and resizes the gates (lines 365-367, 450-461).
 *
 * What the request cannot control is a parameter for each attempt: the order in which
 * the algorithm prefers backends, which of them accept a connection, and whether each was
 * seen recently.
 */
module Serving {
  import opened Common
  import opened Health
  import opened BackendPool
  import Gates = AdmissionGate
  import Gate = Bulkhead

  /** How an exchange goes once connected: served, failed before the reply head was sent,
      failed after it, or ended by something the handler does not catch (cancellation, a
      reply head over the line limit). */
  datatype Exchange = Served | FailedEarly | FailedMidBody | Aborted

  datatype Reply = Relayed | BadGateway | CutShort | Dropped | Unavailable

  function ReplyTo(exchange: Exchange): Reply {
    match exchange
    case Served => Relayed
    case FailedEarly => BadGateway
    case FailedMidBody => CutShort
    case Aborted => Dropped
  }

  predicate RoutableId(pool: seq<Member>, id: nat) {
    IndexOf(pool, id) < |pool| && pool[IndexOf(pool, id)].Routable()
  }

  /** pick(exclude=tried): the first preferred backend that is routable and was not tried. */
  function Pick(pool: seq<Member>, order: seq<nat>, tried: seq<nat>): (b: Option<nat>)
    ensures b.Some? ==> b.value in order && b.value !in tried && RoutableId(pool, b.value)
    ensures b.None? ==> forall id | id in order :: id in tried || !RoutableId(pool, id)
  {
    if order == [] then None
    else if order[0] !in tried && RoutableId(pool, order[0]) then Some(order[0])
    else Pick(pool, order[1..], tried)
  }

  /** What is picked is a routable member, and nothing is picked only when every routable
      member the algorithm prefers was tried. */
  lemma PickIsRoutable(pool: seq<Member>, order: seq<nat>, tried: seq<nat>)
    requires forall id :: Once(pool, id)
    ensures var b := Pick(pool, order, tried);
            if b.Some? then b.value !in tried && exists k :: 0 <= k < |pool| && pool[k].id == b.value && pool[k].Routable()
            else forall k | 0 <= k < |pool| && pool[k].Routable() :: pool[k].id !in order || pool[k].id in tried
  {
    hide Once;
    var b := Pick(pool, order, tried);
    if b.Some? {
      assert pool[IndexOf(pool, b.value)].id == b.value;
    } else {
      forall k | 0 <= k < |pool| && pool[k].Routable() ensures pool[k].id !in order || pool[k].id in tried {
        IndexIsThere(pool, pool[k].id, k);
      }
    }
  }

  /** The evidence a failed connect to each of `failed` is, in order. */
  function Failures(pool: seq<Member>, failed: seq<nat>, recent: nat -> bool): (events: seq<Event>)
    ensures |events| == |failed|
  {
    seq(|failed|, i requires 0 <= i < |failed| => ProxyFailed(IndexOf(pool, failed[i]), false, recent(i)))
  }

  /** The pool once the connects to `failed` have failed. */
  function After(pool: seq<Member>, c: Config, failed: seq<nat>, recent: nat -> bool): seq<Member> {
    Run(pool, c, Failures(pool, failed, recent))
  }

  /** Each attempt went to what was picked then, and could not connect. */
  ghost predicate Tried(pool: seq<Member>, c: Config, failed: seq<nat>,
                        order: nat -> seq<nat>, up: nat -> set<nat>, recent: nat -> bool) {
    forall j | 0 <= j < |failed| ::
      && Pick(After(pool, c, failed[..j], recent), order(j), failed[..j]) == Some(failed[j])
      && failed[j] !in up(j)
  }

  /** What the end of the exchange says about the backend at `i`. */
  function Verdict(i: nat, exchange: Exchange, recent: bool): seq<Event> {
    match exchange
    case Served => [ProxyServed(i)]
    case FailedEarly => [ProxyFailed(i, false, recent)]
    case FailedMidBody => [ProxyFailed(i, true, recent)]
    case Aborted => []
  }

  /** The client sees the reply of a served request, an error when no reply head was sent
      yet, a reply cut short when it was, and nothing when something uncaught ended it. */
  predicate Matches(reply: Reply, exchange: Exchange) {
    && (reply.Relayed? <==> exchange.Served?) && (reply.BadGateway? <==> exchange.FailedEarly?)
    && (reply.CutShort? <==> exchange.FailedMidBody?) && (reply.Dropped? <==> exchange.Aborted?)
  }

  /** How the pool takes the end of an exchange with the backend at `i`: being served clears
      its failures; a failure before the reply head is held against it, and ejects it when it
      was one too many, as long as another can take over; nothing else leaves a trace. */
  ghost predicate Judged(before: seq<Member>, after: seq<Member>, c: Config, i: nat, exchange: Exchange, recent: bool)
    requires i < |before|
  {
    var m := before[i];
    match exchange
    case Served => after == before[i := m.(passiveFails := 0)]
    case FailedMidBody => after == before
    case Aborted => after == before
    case FailedEarly =>
      if !m.Routable() || !OthersRoutable(before, i) then after == before
      else
        && |after| == |before| && (forall j | 0 <= j < |before| && j != i :: after[j] == before[j])
        && after[i].id == m.id && after[i].passiveFails == m.passiveFails + 1
        && (if m.passiveFails + 1 >= (if recent then c.passive else 1) then after[i].state.Down?
            else after[i].state == m.state)
  }

  lemma VerdictJudges(pool: seq<Member>, c: Config, i: nat, exchange: Exchange, recent: bool)
    requires i < |pool|
    ensures Judged(pool, Run(pool, c, Verdict(i, exchange, recent)), c, i, exchange, recent)
  {
    hide OthersRoutable;
    RunOne(pool, c, ProxyServed(i));
    RunOne(pool, c, ProxyFailed(i, exchange.FailedMidBody?, recent));
  }

  lemma RunOne(pool: seq<Member>, c: Config, e: Event)
    ensures Run(pool, c, [e]) == Step(pool, c, e) && Run(pool, c, []) == pool
  {
    assert [e][..0] == [];
  }

  // ---- pool and gates together -----------------------------------------------

  datatype Scene = Scene(pool: seq<Member>, req: Gates.Gate, feed: Gates.Gate)

  /** Slots for each routable backend, and for feed reads. */
  datatype Limits = Limits(slots: int, feedSlots: int)

  /** refresh_active: both gates are resized to the pool as it is now. */
  function Refreshed(s: Scene, lim: Limits): Scene {
    s.(req := Gates.Step(s.req, Gates.Resize(Max(1, RoutableCount(s.pool)) * lim.slots)),
       feed := Gates.Step(s.feed, Gates.Resize(lim.feedSlots)))
  }

  predicate TakesOut(before: seq<Member>, after: seq<Member>, i: nat) {
    i < |before| && i < |after| && before[i].Routable() && !after[i].Routable()
  }

  /** One piece of evidence; an ejection is an event, and an event refreshes. */
  function Observed(s: Scene, c: Config, lim: Limits, e: Event): Scene {
    var after := s.(pool := Step(s.pool, c, e));
    if Observation(e) && TakesOut(s.pool, after.pool, e.i) then Refreshed(after, lim) else after
  }

  function AllObserved(s: Scene, c: Config, lim: Limits, events: seq<Event>): Scene {
    if events == [] then s
    else Observed(AllObserved(s, c, lim, events[..|events| - 1]), c, lim, events[|events| - 1])
  }

  /** The gates have the capacity the pool calls for. */
  predicate Sized(s: Scene, lim: Limits) {
    && s.req.cap == Max(1, Max(1, RoutableCount(s.pool)) * lim.slots)
    && s.feed.cap == Max(1, lim.feedSlots)
  }

  lemma RefreshedIsSized(s: Scene, lim: Limits)
    ensures Sized(Refreshed(s, lim), lim)
  {
    hide RoutableCount;
    Gates.WakeWithinCap(Gates.Resized(s.req, Max(1, RoutableCount(s.pool)) * lim.slots));
    Gates.WakeWithinCap(Gates.Resized(s.feed, lim.feedSlots));
  }

  lemma {:induction false} CountUpdate(pool: seq<Member>, i: nat, m: Member)
    requires i < |pool| && m.Routable() == pool[i].Routable()
    ensures RoutableCount(pool[i := m]) == RoutableCount(pool)
  {
    var n := |pool| - 1;
    if i < n {
      CountUpdate(pool[..n], i, m);
      assert pool[i := m][..n] == pool[..n][i := m];
    } else {
      assert pool[i := m][..n] == pool[..n];
    }
  }

  /** Evidence from proxied requests: an ejection resizes the gates, anything else leaves the
      routable count as it was, so the gates stay sized to the pool. */
  lemma ObservedStaysSized(s: Scene, c: Config, lim: Limits, e: Event)
    requires Sized(s, lim) && (e.ProxyFailed? || e.ProxyServed?)
    ensures Sized(Observed(s, c, lim, e), lim)
  {
    hide Gates.Step, RoutableCount, OthersRoutable;
    var after := Step(s.pool, c, e);
    if TakesOut(s.pool, after, e.i) {
      RefreshedIsSized(s.(pool := after), lim);
    } else if e.i < |s.pool| {
      CountUpdate(s.pool, e.i, after[e.i]);
    }
  }

  lemma {:induction false} StaysSized(s: Scene, c: Config, lim: Limits, events: seq<Event>)
    requires Sized(s, lim) && forall e | e in events :: e.ProxyFailed? || e.ProxyServed?
    ensures Sized(AllObserved(s, c, lim, events), lim)
  {
    hide Sized, Observed;
    if events != [] {
      var front, e := events[..|events| - 1], events[|events| - 1];
      assert e in events && forall x | x in front :: x in events;
      StaysSized(s, c, lim, front);
      ObservedStaysSized(AllObserved(s, c, lim, front), c, lim, e);
    }
  }

  /** One request from the first attempt to the release leaves the gates sized to the pool. */
  lemma ServingStaysSized(s: Scene, c: Config, lim: Limits, earlier: seq<Event>, later: seq<Event>, onFeed: bool, fut: nat)
    requires Sized(s, lim) && forall e | e in earlier || e in later :: e.ProxyFailed? || e.ProxyServed?
    ensures Sized(Released(AllObserved(AllObserved(s, c, lim, earlier), c, lim, later), onFeed, fut), lim)
  {
    hide RoutableCount, AllObserved;
    StaysSized(s, c, lim, earlier);
    var mid := AllObserved(s, c, lim, earlier);
    StaysSized(mid, c, lim, later);
    var end := AllObserved(mid, c, lim, later);
    var gate := if onFeed then end.feed else end.req;
    Gates.WakeWithinCap(Gates.Released(gate, fut));
  }

  lemma AllProxied(pool: seq<Member>, failed: seq<nat>, recent: nat -> bool, said: seq<Event>)
    requires said == [] || exists i: nat, x, r :: said == Verdict(i, x, r)
    ensures forall e | e in Failures(pool, failed, recent) || e in said :: e.ProxyFailed? || e.ProxyServed?
  {
  }

  /** The slot goes back to the gate it came from. */
  function Released(s: Scene, onFeed: bool, fut: nat): Scene {
    if onFeed then s.(feed := Gates.Step(s.feed, Gates.Release(fut)))
    else s.(req := Gates.Step(s.req, Gates.Release(fut)))
  }

  /** The pool sees exactly the evidence. */
  lemma {:induction false} PoolObserves(s: Scene, c: Config, lim: Limits, events: seq<Event>)
    ensures AllObserved(s, c, lim, events).pool == Run(s.pool, c, events)
  {
    hide Step, TakesOut;
    if events != [] {
      PoolObserves(s, c, lim, events[..|events| - 1]);
    }
  }

  lemma ObservedPush(s: Scene, c: Config, lim: Limits, events: seq<Event>, e: Event)
    ensures AllObserved(s, c, lim, events + [e]) == Observed(AllObserved(s, c, lim, events), c, lim, e)
  {
    hide Observed;
    assert (events + [e])[..|events|] == events;
  }

  /** Whoever owns a slot keeps it through a resize. */
  lemma OwnersStay(g: Gates.Gate, capacity: int)
    requires Gates.Inv(g)
    ensures g.owners <= Gates.Step(g, Gates.Resize(capacity)).owners
  {
    hide Gates.Step, Gates.Inv;
    forall f | f in g.owners ensures f in Gates.Step(g, Gates.Resize(capacity)).owners {
      Gates.OthersStay(g, Gates.Resize(capacity), f);
    }
  }

  // ---- membership does not change meanwhile ----------------------------------

  lemma ObservationKeepsIds(pool: seq<Member>, c: Config, e: Event)
    requires Observation(e)
    ensures var after := Step(pool, c, e);
            |after| == |pool| && forall i | 0 <= i < |pool| :: after[i].id == pool[i].id
  {
  }

  lemma {:induction false} RunKeepsIds(pool: seq<Member>, c: Config, events: seq<Event>, id: nat)
    requires Observations(events)
    ensures var after := Run(pool, c, events);
            |after| == |pool| && IndexOf(after, id) == IndexOf(pool, id)
            && forall i | 0 <= i < |pool| :: after[i].id == pool[i].id
  {
    hide Step;
    if events != [] {
      var front, e := events[..|events| - 1], events[|events| - 1];
      RunKeepsIds(pool, c, front, id);
      ObservationKeepsIds(Run(pool, c, front), c, e);
    }
    SameIds(Run(pool, c, events), pool, id);
  }

  lemma FailuresPush(pool: seq<Member>, c: Config, failed: seq<nat>, id: nat, recent: nat -> bool)
    ensures After(pool, c, failed + [id], recent)
            == Step(After(pool, c, failed, recent), c, ProxyFailed(IndexOf(pool, id), false, recent(|failed|)))
  {
    hide Step;
    var events := Failures(pool, failed + [id], recent);
    assert events[..|failed|] == Failures(pool, failed, recent);
  }

  lemma TriedPush(pool: seq<Member>, c: Config, failed: seq<nat>, id: nat,
                  order: nat -> seq<nat>, up: nat -> set<nat>, recent: nat -> bool)
    requires id !in up(|failed|)
    ensures Tried(pool, c, failed, order, up, recent)
            && Pick(After(pool, c, failed, recent), order(|failed|), failed) == Some(id)
            ==> Tried(pool, c, failed + [id], order, up, recent)
  {
    hide After, Pick;
    if !Tried(pool, c, failed, order, up, recent)
       || Pick(After(pool, c, failed, recent), order(|failed|), failed) != Some(id) { return; }
    var more := failed + [id];
    forall j | 0 <= j < |more|
      ensures Pick(After(pool, c, more[..j], recent), order(j), more[..j]) == Some(more[j]) && more[j] !in up(j)
    {
      if j < |failed| {
        assert more[..j] == failed[..j];
      } else {
        assert more[..j] == failed;
      }
    }
  }

  function Ids(pool: seq<Member>): set<nat> {
    set m | m in pool :: m.id
  }

  lemma PickedIsMember(pool: seq<Member>, now: seq<Member>, order: seq<nat>, tried: seq<nat>)
    requires Pick(now, order, tried).Some? && forall id :: IndexOf(now, id) == IndexOf(pool, id)
    requires |now| == |pool|
    ensures Pick(now, order, tried).value in Ids(pool)
  {
    var k := IndexOf(pool, Pick(now, order, tried).value);
    assert pool[k] in pool;
  }

  // ---- the server ------------------------------------------------------------

  class Server {
    const pool: Pool
    const reqGate: Gate.Bulkhead
    const feedGate: Gate.Bulkhead
    const lim: Limits
    var inFlight: map<nat, int>

    constructor (pool: Pool, reqGate: Gate.Bulkhead, feedGate: Gate.Bulkhead, lim: Limits)
      ensures this.pool == pool && this.reqGate == reqGate && this.feedGate == feedGate && this.lim == lim
      ensures inFlight == map[]
    {
      this.pool, this.reqGate, this.feedGate, this.lim, inFlight := pool, reqGate, feedGate, lim, map[];
    }

    static function Count(m: map<nat, int>, b: nat): (n: int)
      ensures b in m ==> n == m[b]
      ensures b !in m ==> n == 0
    {
      if b in m then m[b] else 0
    }

    ghost predicate Valid()
      reads pool, reqGate, feedGate
    {
      pool.Valid() && reqGate.Valid() && feedGate.Valid() && reqGate != feedGate
    }

    ghost function View(): Scene
      reads pool, pool.backends, reqGate, feedGate
    {
      Scene(pool.View(), reqGate.View(), feedGate.View())
    }

    /** The routable backends are counted afresh and the gates follow. */
    method RefreshActive()
      requires Valid()
      modifies reqGate, feedGate
      ensures Valid() && View() == Refreshed(old(View()), lim)
      ensures reqGate.cap == Max(1, Max(1, RoutableCount(pool.View())) * lim.slots)
      ensures feedGate.cap == Max(1, lim.feedSlots)
      ensures old(reqGate.owners) <= reqGate.owners && old(feedGate.owners) <= feedGate.owners
    {
      hide Gates.Step, Gates.Inv, RoutableCount, Members;
      var active := pool.CountRoutable();
      OwnersStay(reqGate.View(), Max(1, active) * lim.slots);
      OwnersStay(feedGate.View(), lim.feedSlots);
      reqGate.ResizeTo(Max(1, active) * lim.slots);
      feedGate.ResizeTo(lim.feedSlots);
    }

    /** eject_now, with the event an ejection raises. */
    method NoteFailure(k: nat, midBody: bool, recent: bool)
      requires Valid() && k < |pool.backends|
      modifies pool.backends, reqGate, feedGate
      ensures Valid() && pool.backends == old(pool.backends)
      ensures View() == Observed(old(View()), pool.cfg, lim, ProxyFailed(k, midBody, recent))
      ensures old(Sized(View(), lim)) ==> Sized(View(), lim)
      ensures old(reqGate.owners) <= reqGate.owners && old(feedGate.owners) <= feedGate.owners
    {
      hide Gates.Step, Gates.Inv, Step, Refreshed, Sized;
      ghost var before := View();
      if Sized(before, lim) { ObservedStaysSized(before, pool.cfg, lim, ProxyFailed(k, midBody, recent)); }
      var routable := pool.backends[k].Routable();
      assert before.pool[k].Routable() == routable;
      pool.EjectNow(k, midBody, recent);
      assert View() == before.(pool := View().pool);
      if routable && !pool.backends[k].Routable() {
        assert !View().pool[k].Routable();
        RefreshActive();
      }
    }

    /** passive_fails = 0 */
    method NoteServed(k: nat)
      requires Valid() && k < |pool.backends|
      modifies pool.backends
      ensures Valid() && pool.backends == old(pool.backends)
      ensures View() == Observed(old(View()), pool.cfg, lim, ProxyServed(k))
    {
      hide Gates.Step, Gates.Inv, Step, Refreshed, Observed;
      ServingSpares(View(), pool.cfg, lim, k);
      pool.Served(k);
    }

    /** The connect-retry loop. */
    method Connect(order: nat -> seq<nat>, up: nat -> set<nat>, recent: nat -> bool)
      returns (chosen: Option<nat>, failed: seq<nat>)
      requires Valid()
      modifies pool.backends, reqGate, feedGate
      ensures Valid() && pool.backends == old(pool.backends)
      ensures Tried(old(pool.View()), pool.cfg, failed, order, up, recent)
      ensures View() == AllObserved(old(View()), pool.cfg, lim, Failures(old(pool.View()), failed, recent))
      ensures chosen == Pick(pool.View(), order(|failed|), failed)
      ensures chosen.Some? ==> chosen.value in up(|failed|)
      ensures old(reqGate.owners) <= reqGate.owners && old(feedGate.owners) <= feedGate.owners
    {
      hide Step, Pick, Tried, Run, Members, Failures, Gates.Inv, Observed;
      ghost var start, scene := pool.View(), View();
      failed := [];
      Nothing(start, pool.cfg, order, up, recent);
      while true
        invariant Valid() && pool.backends == old(pool.backends)
        invariant Tried(start, pool.cfg, failed, order, up, recent)
        invariant View() == AllObserved(scene, pool.cfg, lim, Failures(start, failed, recent))
        invariant forall id | id in failed :: id in Ids(start)
        invariant old(reqGate.owners) <= reqGate.owners && old(feedGate.owners) <= feedGate.owners
        decreases Ids(start) - Seen(failed)
      {
        PoolObserves(scene, pool.cfg, lim, Failures(start, failed, recent));
        StillMembers(start, pool.cfg, failed, recent);
        var now := pool.Snapshot();
        chosen := Pick(now, order(|failed|), failed);
        if chosen.None? || chosen.value in up(|failed|) {
          return;
        }
        var id := chosen.value;
        PickedIsMember(start, now, order(|failed|), failed);
        PickedIsNew(now, order(|failed|), failed);
        PickedIsRoutable(now, order(|failed|), failed);
        TriedPush(start, pool.cfg, failed, id, order, up, recent);
        FailuresSnoc(start, failed, id, recent);
        ObservedPush(scene, pool.cfg, lim, Failures(start, failed, recent),
                     ProxyFailed(IndexOf(start, id), false, recent(|failed|)));
        var k := pool.FindById(id);
        NoteFailure(k, false, recent(|failed|));
        failed := failed + [id];
      }
    }

    /** What the end of an exchange tells the pool, and the client. */
    method Report(b: nat, exchange: Exchange, recent: bool) returns (reply: Reply)
      requires Valid() && IndexOf(pool.View(), b) < |pool.View()|
      modifies pool.backends, reqGate, feedGate
      ensures Valid() && pool.backends == old(pool.backends)
      ensures View() == AllObserved(old(View()), pool.cfg, lim, Verdict(IndexOf(old(pool.View()), b), exchange, recent))
      ensures Matches(reply, exchange)
      ensures Judged(old(pool.View()), pool.View(), pool.cfg, IndexOf(old(pool.View()), b), exchange, recent)
      ensures old(reqGate.owners) <= reqGate.owners && old(feedGate.owners) <= feedGate.owners
    {
      hide Step, Members, Gates.Inv, Gates.Step, Observed, AllObserved, Judged, Run;
      var k := pool.FindById(b);
      VerdictJudges(pool.View(), pool.cfg, k, exchange, recent);
      PoolObserves(View(), pool.cfg, lim, Verdict(k, exchange, recent));
      JustOne(View(), pool.cfg, lim, ProxyServed(k));
      JustOne(View(), pool.cfg, lim, ProxyFailed(k, exchange.FailedMidBody?, recent));
      match exchange {
        case Served => NoteServed(k);
        case FailedEarly => NoteFailure(k, false, recent);
        case FailedMidBody => NoteFailure(k, true, recent);
        case Aborted =>
      }
      reply := ReplyTo(exchange);
    }

    /** Forward to a connected backend; its in-flight count is put back on every exit. */
    method Forward(b: nat, exchange: Exchange, recent: bool) returns (reply: Reply)
      requires Valid() && IndexOf(pool.View(), b) < |pool.View()|
      modifies this`inFlight, pool.backends, reqGate, feedGate
      ensures Valid() && pool.backends == old(pool.backends)
      ensures View() == AllObserved(old(View()), pool.cfg, lim, Verdict(IndexOf(old(pool.View()), b), exchange, recent))
      ensures forall x: nat :: Count(inFlight, x) == Count(old(inFlight), x)
      ensures Matches(reply, exchange)
      ensures Judged(old(pool.View()), pool.View(), pool.cfg, IndexOf(old(pool.View()), b), exchange, recent)
      ensures old(reqGate.owners) <= reqGate.owners && old(feedGate.owners) <= feedGate.owners
    {
      hide Step, Members, Verdict, IndexOf, AllObserved, Gates.Inv, Judged;
      inFlight := inFlight[b := Count(inFlight, b) + 1];
      reply := Report(b, exchange, recent);
      inFlight := inFlight[b := Count(inFlight, b) - 1];
    }

    method Release(onFeed: bool, fut: nat)
      requires Valid() && fut in (if onFeed then feedGate else reqGate).owners
      modifies reqGate, feedGate
      ensures Valid() && View() == Released(old(View()), onFeed, fut)
      ensures fut !in (if onFeed then feedGate else reqGate).owners
      ensures if onFeed then reqGate.View() == old(reqGate.View()) else feedGate.View() == old(feedGate.View())
    {
      hide Gates.Step, Gates.Inv, Members;
      SlotIsGone((if onFeed then feedGate else reqGate).View(), fut);
      if onFeed {
        feedGate.ReleaseSlot(fut);
      } else {
        reqGate.ReleaseSlot(fut);
      }
    }

    /** Serve one request that owns slot `fut` of its gate. */
    method ServeAdmitted(onFeed: bool, fut: nat, order: nat -> seq<nat>, up: nat -> set<nat>,
                         recent: nat -> bool, exchange: Exchange)
      returns (reply: Reply, written: Option<nat>, failed: seq<nat>)
      requires Valid() && fut in (if onFeed then feedGate else reqGate).owners
      modifies this, pool.backends, reqGate, feedGate
      ensures Valid() && Tried(old(pool.View()), pool.cfg, failed, order, up, recent)
      ensures forall b: nat :: Count(inFlight, b) == Count(old(inFlight), b)
      ensures var now := AllObserved(old(View()), pool.cfg, lim, Failures(old(pool.View()), failed, recent));
              && written == Pick(now.pool, order(|failed|), failed)
              && (written.Some? ==> written.value in up(|failed|))
              && View() == Released(
                             if written.None? then now
                             else AllObserved(now, pool.cfg, lim,
                                              Verdict(IndexOf(now.pool, written.value), exchange, recent(|failed|))),
                             onFeed, fut)
      ensures fut !in (if onFeed then feedGate else reqGate).owners
      ensures old(Sized(View(), lim)) ==> Sized(View(), lim)
      ensures reply.Unavailable? <==> written.None?
      ensures written.Some? ==>
                var now := AllObserved(old(View()), pool.cfg, lim, Failures(old(pool.View()), failed, recent)).pool;
                Matches(reply, exchange)
                && Judged(now, pool.View(), pool.cfg, IndexOf(now, written.value), exchange, recent(|failed|))
    {
      hide Step, Tried, Members, Gates.Step, Gates.Inv, Pick, AllObserved, Failures, Verdict, Released, Judged, Sized;
      hide IndexOf, Server.Count;
      ghost var start, said := View(), [];
      written, failed := Connect(order, up, recent);
      if written.None? {
        JustOne(View(), pool.cfg, lim, ProxyServed(0));
        reply := Unavailable;
      } else {
        PickedIsRoutable(pool.View(), order(|failed|), failed);
        said := Verdict(IndexOf(pool.View(), written.value), exchange, recent(|failed|));
        reply := Forward(written.value, exchange, recent(|failed|));
      }
      if Sized(start, lim) {
        AllProxied(start.pool, failed, recent, said);
        ServingStaysSized(start, pool.cfg, lim, Failures(start.pool, failed, recent), said, onFeed, fut);
      }
      Release(onFeed, fut);
    }
  }

  lemma SlotIsGone(g: Gates.Gate, fut: nat)
    requires Gates.Inv(g) && fut in g.owners
    ensures fut !in Gates.Step(g, Gates.Release(fut)).owners
  {
    hide Gates.Step, Gates.Inv;
    Gates.LeavesTheGate(g, Gates.Release(fut));
  }

  /** Being served takes nobody out, so it refreshes nothing. */
  lemma ServingSpares(s: Scene, c: Config, lim: Limits, k: nat)
    ensures Observed(s, c, lim, ProxyServed(k)) == s.(pool := Step(s.pool, c, ProxyServed(k)))
  {
  }

  lemma JustOne(s: Scene, c: Config, lim: Limits, e: Event)
    ensures AllObserved(s, c, lim, []) == s && AllObserved(s, c, lim, [e]) == Observed(s, c, lim, e)
  {
    hide Observed;
    assert [e][..0] == [];
  }

  lemma FailuresSnoc(pool: seq<Member>, failed: seq<nat>, id: nat, recent: nat -> bool)
    ensures Failures(pool, failed + [id], recent)
            == Failures(pool, failed, recent) + [ProxyFailed(IndexOf(pool, id), false, recent(|failed|))]
  {
  }

  function Seen(failed: seq<nat>): set<nat> {
    set id | id in failed
  }

  lemma PickedIsNew(now: seq<Member>, order: seq<nat>, failed: seq<nat>)
    requires Pick(now, order, failed).Some?
    ensures Pick(now, order, failed).value !in failed
    ensures Seen(failed + [Pick(now, order, failed).value]) == Seen(failed) + {Pick(now, order, failed).value}
  {
  }

  lemma PickedIsRoutable(now: seq<Member>, order: seq<nat>, failed: seq<nat>)
    requires Pick(now, order, failed).Some?
    ensures IndexOf(now, Pick(now, order, failed).value) < |now|
  {
  }

  lemma Nothing(pool: seq<Member>, c: Config, order: nat -> seq<nat>, up: nat -> set<nat>, recent: nat -> bool)
    ensures After(pool, c, [], recent) == pool && Tried(pool, c, [], order, up, recent)
  {
  }

  lemma StillMembers(pool: seq<Member>, c: Config, failed: seq<nat>, recent: nat -> bool)
    ensures |After(pool, c, failed, recent)| == |pool|
    ensures forall id :: IndexOf(After(pool, c, failed, recent), id) == IndexOf(pool, id)
  {
    hide Run;
    forall id ensures IndexOf(After(pool, c, failed, recent), id) == IndexOf(pool, id) {
      RunKeepsIds(pool, c, Failures(pool, failed, recent), id);
    }
    RunKeepsIds(pool, c, Failures(pool, failed, recent), 0);
  }

  // ---- with a fixed preference -----------------------------------------------

  /** The first preferred backend that is routable and accepts a connection. */
  function FirstReachable(pool: seq<Member>, order: seq<nat>, up: set<nat>): Option<nat> {
    if order == [] then None
    else if order[0] in up && RoutableId(pool, order[0]) then Some(order[0])
    else FirstReachable(pool, order[1..], up)
  }

  lemma FailureSparesOthers(pool: seq<Member>, c: Config, failed: nat, recent: bool, id: nat)
    requires id != failed
    ensures RoutableId(Step(pool, c, ProxyFailed(IndexOf(pool, failed), false, recent)), id) == RoutableId(pool, id)
  {
    var e := ProxyFailed(IndexOf(pool, failed), false, recent);
    ObservationKeepsIds(pool, c, e);
    SameIds(Step(pool, c, e), pool, id);
  }

  /** Ejections on the way leave every backend not tried as it was. */
  lemma {:induction false} UntriedAreSpared(pool: seq<Member>, c: Config, failed: seq<nat>, recent: nat -> bool, id: nat)
    requires id !in failed
    ensures RoutableId(After(pool, c, failed, recent), id) == RoutableId(pool, id)
  {
    hide After, RoutableId, Step;
    if failed == [] {
      NoneFailed(pool, c, recent);
    } else {
      var front, last := failed[..|failed| - 1], failed[|failed| - 1];
      UntriedAreSpared(pool, c, front, recent, id);
      SplitLast(failed);
      FailuresPush(pool, c, front, last, recent);
      StillMembers(pool, c, front, recent);
      FailureSparesOthers(After(pool, c, front, recent), c, last, recent(|front|), id);
    }
  }

  lemma NoneFailed(pool: seq<Member>, c: Config, recent: nat -> bool)
    ensures After(pool, c, [], recent) == pool
  {
  }

  lemma {:induction false} PickReaches(start: seq<Member>, now: seq<Member>, order: seq<nat>, failed: seq<nat>, up: set<nat>)
    requires forall id | id !in failed :: RoutableId(now, id) == RoutableId(start, id)
    requires forall id | id in failed :: id !in up
    ensures Pick(now, order, failed).None? ==> FirstReachable(start, order, up) == None
    ensures var b := Pick(now, order, failed); b.Some? && b.value in up ==> FirstReachable(start, order, up) == b
  {
    hide RoutableId;
    if order != [] {
      PickReaches(start, now, order[1..], failed, up);
    }
  }

  /** With a preference and a set of reachable backends that do not change meanwhile, the
      request is written to the first preferred backend that could be reached at the start,
      and goes unanswered only when there is none. */
  lemma WritesToFirstReachable(start: seq<Member>, c: Config, failed: seq<nat>, chosen: Option<nat>,
                               order: seq<nat>, up: set<nat>, recent: nat -> bool)
    requires Tried(start, c, failed, _ => order, _ => up, recent)
    requires chosen == Pick(After(start, c, failed, recent), order, failed)
    requires chosen.Some? ==> chosen.value in up
    ensures chosen == FirstReachable(start, order, up)
  {
    hide After, Pick, FirstReachable, RoutableId;
    forall id | id !in failed
      ensures RoutableId(After(start, c, failed, recent), id) == RoutableId(start, id)
    {
      UntriedAreSpared(start, c, failed, recent, id);
    }
    forall id | id in failed ensures id !in up {
      var j :| 0 <= j < |failed| && failed[j] == id;
      assert failed[j] !in (_ => up)(j);
    }
    PickReaches(start, After(start, c, failed, recent), order, failed, up);
  }
}
