/**
 * What holds over every run of the dispatcher (lb/loadbalancer.py:1379-1486): slots,
 * in-flight counts, retries, and what remains when everyone has gone.
 */
module DispatchRuns {
  import opened Common
  import opened Dispatch
  import opened Seating
  import Gates = AdmissionGate

  // ---- in-flight counts ------------------------------------------------------

  function Get(m: map<nat, int>, b: nat): int { if b in m then m[b] else 0 }

  /** A backend's in-flight count is the number of exchanges on it. */
  ghost predicate InFlightAccounted(w: World, b: nat) {
    Get(w.inFlight, b) == OnBackend(w.conns, b)
  }

  lemma StepInFlight(w: World, cfg: Config, e: Event, b: nat)
    requires InFlightAccounted(w, b)
    ensures InFlightAccounted(Step(w, cfg, e), b)
  {
    hide OnBackend, GateAfter, ActOf, NumbersOne;
    if e.Connect? {
      IdleIsNowhere(w.conns, b);
    } else if About(w, e) {
      OnBackendMove(w.conns, e.c, Moved(w, cfg, e, w.conns[e.c]), b);
    }
  }

  // ---- one backend for each request ------------------------------------------

  predicate Numbered(p: Phase) { p.Waiting? || p.Choosing? || p.Proxying? }

  predicate NotYetSent(p: Phase) { p.Waiting? || p.Choosing? }

  /** Each request is served by one connection. */
  ghost predicate RequestsDistinct(conns: seq<Phase>, next: nat) {
    && (forall c | 0 <= c < |conns| && Numbered(conns[c]) :: conns[c].req < next)
    && (forall c, d :: 0 <= c < d < |conns| && Numbered(conns[c]) && Numbered(conns[d])
          ==> conns[c].req != conns[d].req)
  }

  /** Each request is written to at most one backend. */
  ghost predicate SentOnce(conns: seq<Phase>, sent: seq<(nat, nat)>, next: nat) {
    && (forall i | 0 <= i < |sent| :: sent[i].0 < next)
    && (forall i, j :: 0 <= i < j < |sent| ==> sent[i].0 != sent[j].0)
    && (forall c, i | 0 <= c < |conns| && NotYetSent(conns[c]) && 0 <= i < |sent| :: sent[i].0 != conns[c].req)
  }

  /** Whoever is served by a backend has its request on record there. */
  ghost predicate Recorded(conns: seq<Phase>, sent: seq<(nat, nat)>) {
    forall c | 0 <= c < |conns| && conns[c].Proxying? :: (conns[c].req, conns[c].backend) in sent
  }

  /** A request is retried only on known backends not tried before. */
  ghost predicate TriedDistinct(conns: seq<Phase>, known: set<nat>) {
    forall c | 0 <= c < |conns| :: TriesKnown(conns[c], known)
  }

  predicate TriesKnown(p: Phase, known: set<nat>) {
    p.Choosing? ==> p.tried <= known && p.attempts == |p.tried|
  }

  ghost predicate OneBackendEach(w: World) {
    && RequestsDistinct(w.conns, w.next)
    && SentOnce(w.conns, w.sent, w.next)
    && Recorded(w.conns, w.sent)
    && TriedDistinct(w.conns, w.known)
  }

  /** With admission on only WebSockets travel without a slot. */
  ghost predicate Gated(conns: seq<Phase>) {
    forall c | 0 <= c < |conns| && (conns[c].Choosing? || conns[c].Proxying?) ::
      conns[c].slot.Some? <==> !conns[c].ws
  }

  /** A connection's next phase serves the request it served, a new one, or none. */
  predicate Continues(was: Phase, p: Phase, next: nat, later: nat) {
    Numbered(p) ==> (Numbered(was) && p.req == was.req) || (p.req == next && next < later)
  }

  lemma MoveRequestsDistinct(conns: seq<Phase>, c: nat, p: Phase, next: nat, later: nat)
    requires RequestsDistinct(conns, next) && c < |conns| && next <= later
    requires Continues(conns[c], p, next, later)
    ensures RequestsDistinct(conns[c := p], later)
  {
  }

  lemma StepRequestsDistinct(w: World, cfg: Config, e: Event)
    requires RequestsDistinct(w.conns, w.next)
    ensures var v := Step(w, cfg, e); RequestsDistinct(v.conns, v.next)
  {
    hide GateAfter, ActOf, Bump;
    if About(w, e) {
      hide RequestsDistinct;
      MoveRequestsDistinct(w.conns, e.c, Moved(w, cfg, e, w.conns[e.c]), w.next, Step(w, cfg, e).next);
    }
  }

  lemma MoveSentOnce(conns: seq<Phase>, sent: seq<(nat, nat)>, c: nat, p: Phase, next: nat, later: nat)
    requires SentOnce(conns, sent, next) && c < |conns| && next <= later
    requires NotYetSent(p) ==> (NotYetSent(conns[c]) && p.req == conns[c].req) || p.req == next
    ensures SentOnce(conns[c := p], sent, later)
  {
  }

  lemma SendSentOnce(conns: seq<Phase>, sent: seq<(nat, nat)>, c: nat, p: Phase, b: nat, next: nat)
    requires RequestsDistinct(conns, next) && SentOnce(conns, sent, next)
    requires c < |conns| && NotYetSent(conns[c]) && !NotYetSent(p)
    ensures SentOnce(conns[c := p], sent + [(conns[c].req, b)], next)
  {
  }

  lemma StepSentOnce(w: World, cfg: Config, e: Event)
    requires RequestsDistinct(w.conns, w.next) && SentOnce(w.conns, w.sent, w.next)
    ensures var v := Step(w, cfg, e); SentOnce(v.conns, v.sent, v.next)
  {
    hide GateAfter, ActOf, Bump, RequestsDistinct;
    if About(w, e) {
      hide SentOnce;
      var p := Moved(w, cfg, e, w.conns[e.c]);
      if Sends(w, e) {
        SendSentOnce(w.conns, w.sent, e.c, p, e.backend, w.next);
      } else {
        MoveSentOnce(w.conns, w.sent, e.c, p, w.next, Step(w, cfg, e).next);
      }
    }
  }

  lemma MoveRecorded(conns: seq<Phase>, sent: seq<(nat, nat)>, c: nat, p: Phase, later: seq<(nat, nat)>)
    requires Recorded(conns, sent) && c < |conns| && sent <= later
    requires p.Proxying? ==> (p.req, p.backend) in later
    ensures Recorded(conns[c := p], later)
  {
    forall x | x in sent ensures x in later {
      var i :| 0 <= i < |sent| && sent[i] == x;
      assert later[i] == x;
    }
  }

  lemma StepRecorded(w: World, cfg: Config, e: Event)
    requires Recorded(w.conns, w.sent)
    ensures var v := Step(w, cfg, e); Recorded(v.conns, v.sent)
  {
    hide GateAfter, ActOf, Bump;
    if About(w, e) {
      MoveRecorded(w.conns, w.sent, e.c, Moved(w, cfg, e, w.conns[e.c]), Step(w, cfg, e).sent);
    }
  }

  lemma MoveTriedDistinct(conns: seq<Phase>, c: nat, p: Phase, known: set<nat>)
    requires TriedDistinct(conns, known) && c < |conns| && TriesKnown(p, known)
    ensures TriedDistinct(conns[c := p], known)
  {
  }

  lemma MoreKnown(conns: seq<Phase>, known: set<nat>, more: set<nat>)
    requires TriedDistinct(conns, known) && known <= more
    ensures TriedDistinct(conns, more) && TriedDistinct(conns + [Idle], more)
  {
  }

  lemma MovedTriesKnown(w: World, cfg: Config, e: Event, p: Phase)
    requires TriesKnown(p, w.known)
    ensures TriesKnown(Moved(w, cfg, e, p), w.known)
  {
    hide GateAfter;
  }

  lemma StepTriedDistinct(w: World, cfg: Config, e: Event)
    requires TriedDistinct(w.conns, w.known)
    ensures var v := Step(w, cfg, e); TriedDistinct(v.conns, v.known)
  {
    hide GateAfter, Bump, Moved, Sends, NumbersOne;
    if About(w, e) {
      assert TriesKnown(w.conns[e.c], w.known);
      MovedTriesKnown(w, cfg, e, w.conns[e.c]);
      hide TriedDistinct;
      MoveTriedDistinct(w.conns, e.c, Moved(w, cfg, e, w.conns[e.c]), w.known);
    } else {
      MoreKnown(w.conns, w.known, Step(w, cfg, e).known);
    }
  }

  lemma StepOneBackendEach(w: World, cfg: Config, e: Event)
    requires OneBackendEach(w)
    ensures OneBackendEach(Step(w, cfg, e))
  {
    hide RequestsDistinct, SentOnce, TriedDistinct, Recorded, Step;
    StepRequestsDistinct(w, cfg, e);
    StepSentOnce(w, cfg, e);
    StepRecorded(w, cfg, e);
    StepTriedDistinct(w, cfg, e);
  }

  lemma StepGated(w: World, cfg: Config, e: Event)
    requires cfg.admission && Gated(w.conns)
    ensures Gated(Step(w, cfg, e).conns)
  {
    hide GateAfter, Bump;
  }

  // ---- main results ----------------------------------------------------------

  ghost predicate Accounted(w: World) {
    AllSeated(w) && forall b: nat :: InFlightAccounted(w, b)
  }

  /** In every interleaving, however late the handlers of cancelled waits run: whoever is
      being served holds a slot of its own, everyone in a gate's queue or slots is a
      connection, each backend's in-flight count is the number of exchanges on it, and
      every request is written to at most one backend, the one that serves it, after
      trying only distinct known ones. */
  lemma {:induction false} AccountedInEveryRun(cfg: Config, events: seq<Event>)
    ensures Accounted(Run(cfg, events))
    ensures OneBackendEach(Run(cfg, events))
    ensures cfg.admission ==> Gated(Run(cfg, events).conns)
  {
    hide AllSeated, OneBackendEach, Gated, Step, InFlightAccounted;
    if events == [] {
      InitSeated(cfg);
      NothingAtFirst(cfg);
    } else {
      var front, e := events[..|events| - 1], events[|events| - 1];
      AccountedInEveryRun(cfg, front);
      var w := Run(cfg, front);
      StepKeepsSeated(w, cfg, e);
      forall b: nat ensures InFlightAccounted(Step(w, cfg, e), b) {
        StepInFlight(w, cfg, e, b);
      }
      StepOneBackendEach(w, cfg, e);
      if cfg.admission {
        StepGated(w, cfg, e);
      }
    }
  }

  lemma NothingAtFirst(cfg: Config)
    ensures var w := Init(cfg); OneBackendEach(w) && Gated(w.conns) && forall b: nat :: InFlightAccounted(w, b)
  {
  }

  /** No attempt is ever repeated, so a request gives up after at most as many failed
      connects as there are known backends. */
  lemma RetriesAreBounded(cfg: Config, events: seq<Event>, c: nat)
    ensures var w := Run(cfg, events);
            c < |w.conns| && w.conns[c].Choosing? ==> w.conns[c].attempts <= |w.known|
  {
    hide Run, RequestsDistinct, SentOnce, Recorded;
    AccountedInEveryRun(cfg, events);
    var w := Run(cfg, events);
    if c < |w.conns| && w.conns[c].Choosing? {
      assert TriesKnown(w.conns[c], w.known);
      SubsetSize(w.conns[c].tried, w.known);
    }
  }

  lemma {:induction false} SubsetSize(a: set<nat>, b: set<nat>)
    requires a <= b
    ensures |a| <= |b|
  {
    if a != {} {
      var x :| x in a;
      SubsetSize(a - {x}, b - {x});
    }
  }

  // ---- the bound on what is in flight ----------------------------------------

  function SumInFlight(inFlight: map<nat, int>, ids: seq<nat>): int {
    if ids == [] then 0 else SumInFlight(inFlight, ids[..|ids| - 1]) + Get(inFlight, ids[|ids| - 1])
  }

  /** Exchanges on any of the listed backends. */
  function OnAny(conns: seq<Phase>, ids: seq<nat>): nat {
    if ids == [] then 0 else OnAny(conns, ids[..|ids| - 1]) + OnBackend(conns, ids[|ids| - 1])
  }

  lemma {:induction false} OnAnySnoc(conns: seq<Phase>, p: Phase, ids: seq<nat>)
    requires Distinct(ids)
    ensures OnAny(conns + [p], ids) == OnAny(conns, ids) + if p.Proxying? && p.backend in ids then 1 else 0
  {
    if ids != [] {
      OnAnySnoc(conns, p, ids[..|ids| - 1]);
      SplitLast(ids);
      assert (conns + [p])[..|conns|] == conns;
    }
  }

  lemma {:induction false} OnAnyIsAtMostProxying(conns: seq<Phase>, ids: seq<nat>)
    requires Distinct(ids)
    ensures OnAny(conns, ids) <= ProxyingAll(conns)
  {
    if conns == [] {
      OnAnyEmpty(ids);
    } else {
      OnAnyIsAtMostProxying(conns[..|conns| - 1], ids);
      OnAnySnoc(conns[..|conns| - 1], conns[|conns| - 1], ids);
      SplitLast(conns);
    }
  }

  lemma {:induction false} OnAnyEmpty(ids: seq<nat>)
    ensures OnAny([], ids) == 0
  {
    if ids != [] {
      OnAnyEmpty(ids[..|ids| - 1]);
    }
  }

  lemma {:induction false} SumIsOnAny(w: World, ids: seq<nat>)
    requires forall b: nat :: InFlightAccounted(w, b)
    ensures SumInFlight(w.inFlight, ids) == OnAny(w.conns, ids)
  {
    if ids != [] {
      SumIsOnAny(w, ids[..|ids| - 1]);
      assert InFlightAccounted(w, ids[|ids| - 1]);
    }
  }

  lemma {:induction false} ProxyingNeedsSlotOrSocket(conns: seq<Phase>)
    requires Gated(conns)
    ensures ProxyingAll(conns) <= HoldingOf(conns, Req) + HoldingOf(conns, Feed) + OpenSockets(conns)
  {
    if conns != [] {
      ProxyingNeedsSlotOrSocket(conns[..|conns| - 1]);
      var p := conns[|conns| - 1];
      if p.Proxying? && p.slot.Some? {
        assert p.slot.value.kind == Req || p.slot.value.kind == Feed;
      }
    }
  }

  /** The futures connections of one gate travel with. */
  function Futures(conns: seq<Phase>, kind: Kind): set<nat> {
    if conns == [] then {}
    else
      var p := conns[|conns| - 1];
      Futures(conns[..|conns| - 1], kind) + if Holds(p, kind) then {p.slot.value.fut} else {}
  }

  lemma {:induction false} FuturesAre(conns: seq<Phase>, kind: Kind, f: nat)
    requires f in Futures(conns, kind)
    ensures exists c :: 0 <= c < |conns| && Holds(conns[c], kind) && PlaceOf(conns[c]) == Some(Slot(kind, f))
  {
    var n := |conns| - 1;
    if f in Futures(conns[..n], kind) {
      FuturesAre(conns[..n], kind, f);
      var c :| 0 <= c < n && Holds(conns[..n][c], kind) && PlaceOf(conns[..n][c]) == Some(Slot(kind, f));
      assert conns[..n][c] == conns[c];
    } else {
      assert Holds(conns[n], kind);
    }
  }

  /** Each holder has a future of its own, so they can be counted by their futures. */
  lemma {:induction false} HoldersAreCounted(conns: seq<Phase>, kind: Kind)
    requires PlacesDistinct(conns)
    ensures |Futures(conns, kind)| == HoldingOf(conns, kind)
  {
    if conns != [] {
      var n := |conns| - 1;
      HoldersAreCounted(conns[..n], kind);
      if Holds(conns[n], kind) && conns[n].slot.value.fut in Futures(conns[..n], kind) {
        FuturesAre(conns[..n], kind, conns[n].slot.value.fut);
        assert false;
      }
    }
  }

  /** Whoever travels in a slot owns it. */
  lemma HoldersAreOwners(conns: seq<Phase>, kind: Kind, g: Gates.Gate)
    requires PlacesDistinct(conns) && AllFit(conns, kind, g)
    ensures HoldingOf(conns, kind) <= |g.owners|
  {
    HoldersAreCounted(conns, kind);
    forall f | f in Futures(conns, kind) ensures f in g.owners {
      FuturesAre(conns, kind, f);
      var c :| 0 <= c < |conns| && Holds(conns[c], kind) && PlaceOf(conns[c]) == Some(Slot(kind, f));
      assert Fits(conns[c], Gates.Stand(g, f));
    }
    SubsetSize(Futures(conns, kind), g.owners);
  }

  /** Slots cancel handlers gave back wrongly and the clamp did not make up for. */
  function Missing(g: Gates.Gate): int { g.lost - g.clamped }

  /** With admission on, in every run: what all backends together have in flight is at most
      the slots owned at both gates and the open WebSockets; against the counts the gates
      keep, it can exceed them by exactly as much as late cancel handlers took off. */
  lemma InFlightWithinAdmission(cfg: Config, events: seq<Event>, ids: seq<nat>)
    requires cfg.admission && Distinct(ids)
    ensures var w := Run(cfg, events);
            SumInFlight(w.inFlight, ids) <= |w.req.owners| + |w.feed.owners| + OpenSockets(w.conns)
    ensures var w := Run(cfg, events);
            SumInFlight(w.inFlight, ids)
            <= w.req.held + w.feed.held + OpenSockets(w.conns) + Missing(w.req) + Missing(w.feed)
  {
    hide Run, OneBackendEach, SumInFlight, OnAny, ProxyingAll, HoldingOf, OpenSockets;
    hide Gates.InOrder, Gates.Placed, Gates.Accounted, Gates.Full, NoneLost;
    AccountedInEveryRun(cfg, events);
    var w := Run(cfg, events);
    SumIsOnAny(w, ids);
    OnAnyIsAtMostProxying(w.conns, ids);
    ProxyingNeedsSlotOrSocket(w.conns);
    HoldersAreOwners(w.conns, Req, w.req);
    HoldersAreOwners(w.conns, Feed, w.feed);
  }

  // ---- when no cancel handler misses -----------------------------------------

  /** The failing branch: a handler runs for a future that is no longer queued. */
  predicate Misses(w: World, e: Event) {
    && e.Unwind? && About(w, e) && w.conns[e.c].HungUp?
    && var place := w.conns[e.c].place;
       var g := GateOf(w, place.kind);
       place.fut in g.cancelled && place.fut !in g.queue
  }

  predicate CleanRun(cfg: Config, events: seq<Event>) {
    events == []
    || (var front, e := events[..|events| - 1], events[|events| - 1];
        CleanRun(cfg, front) && !Misses(Run(cfg, front), e))
  }

  lemma StepLoses(w: World, cfg: Config, e: Event)
    requires Gates.Inv(w.req) && Gates.Inv(w.feed)
    ensures var v := Step(w, cfg, e);
            v.req.lost + v.feed.lost == w.req.lost + w.feed.lost + if Misses(w, e) then 1 else 0
  {
    hide Gates.Step, Gates.Inv, Moved, Bump, Sends, NumbersOne;
    var act := ActOf(w, cfg, e);
    if act.Some? {
      Gates.LostStep(GateOf(w, act.value.kind), act.value.event);
    }
  }

  /** No slot was lost at either gate if and only if no cancel handler missed. */
  lemma {:induction false} NothingLostExactly(cfg: Config, events: seq<Event>)
    ensures var w := Run(cfg, events); w.req.lost == 0 && w.feed.lost == 0 <==> CleanRun(cfg, events)
  {
    hide Step, Misses, Gates.Inv, AllFit, NoneLost, OneBackendEach;
    if events != [] {
      var front, e := events[..|events| - 1], events[|events| - 1];
      NothingLostExactly(cfg, front);
      AccountedInEveryRun(cfg, front);
      StepLoses(Run(cfg, front), cfg, e);
    }
  }

  lemma CleanCounts(cfg: Config, events: seq<Event>)
    requires CleanRun(cfg, events)
    ensures var w := Run(cfg, events);
            && Missing(w.req) == 0 && w.req.held == |w.req.owners|
            && Missing(w.feed) == 0 && w.feed.held == |w.feed.owners|
  {
    hide Run, CleanRun, OneBackendEach, AllFit, NoneLost;
    NothingLostExactly(cfg, events);
    AccountedInEveryRun(cfg, events);
  }

  /** So while every cancel handler still finds its future queued, what is in flight is at
      most the request slots held, the feed slots held and the open WebSockets. */
  lemma InFlightWithinHeld(cfg: Config, events: seq<Event>, ids: seq<nat>)
    requires cfg.admission && Distinct(ids) && CleanRun(cfg, events)
    ensures var w := Run(cfg, events);
            SumInFlight(w.inFlight, ids) <= w.req.held + w.feed.held + OpenSockets(w.conns)
  {
    hide Run, CleanRun;
    CleanCounts(cfg, events);
    InFlightWithinAdmission(cfg, events, ids);
  }

  /** Cancellation is atomic at a gate: while it has a cancelled future, the only step taken
      there is its handler. */
  ghost predicate AtomicAt(w: World, cfg: Config, e: Event) {
    var act := ActOf(w, cfg, e);
    act.Some? && GateOf(w, act.value.kind).cancelled != {} ==> act.value.event.Unwind?
  }

  ghost predicate AtomicRun(cfg: Config, events: seq<Event>) {
    events == []
    || (var front, e := events[..|events| - 1], events[|events| - 1];
        AtomicRun(cfg, front) && AtomicAt(Run(cfg, front), cfg, e))
  }

  lemma AtomicStepKeeps(w: World, cfg: Config, e: Event, kind: Kind)
    requires var g := GateOf(w, kind); Gates.Inv(g) && g.lost == 0 && g.popped == {}
    requires AtomicAt(w, cfg, e)
    ensures var h := GateOf(Step(w, cfg, e), kind); h.lost == 0 && h.popped == {}
  {
    hide Gates.Step, Gates.Inv, Moved, Bump, Sends, NumbersOne, ActOf;
    var act := ActOf(w, cfg, e);
    if act.Some? && act.value.kind == kind {
      Gates.AtomicStep(GateOf(w, kind), act.value.event);
    }
  }

  lemma {:induction false} AtomicKeeps(cfg: Config, events: seq<Event>, kind: Kind)
    requires AtomicRun(cfg, events)
    ensures var g := GateOf(Run(cfg, events), kind); g.lost == 0 && g.popped == {}
  {
    hide Step, AtomicAt, Gates.Inv, AllFit, NoneLost, OneBackendEach;
    if events != [] {
      var front, e := events[..|events| - 1], events[|events| - 1];
      AtomicKeeps(cfg, front, kind);
      AccountedInEveryRun(cfg, front);
      AtomicStepKeeps(Run(cfg, front), cfg, e, kind);
    }
  }

  /** Atomic cancellation is one way to a clean run. */
  lemma AtomicIsClean(cfg: Config, events: seq<Event>)
    requires AtomicRun(cfg, events)
    ensures CleanRun(cfg, events)
  {
    hide Run, CleanRun, AtomicRun;
    AtomicKeeps(cfg, events, Req);
    AtomicKeeps(cfg, events, Feed);
    NothingLostExactly(cfg, events);
  }

  // ---- at rest ---------------------------------------------------------------

  ghost predicate AllAtRest(conns: seq<Phase>) {
    forall c | 0 <= c < |conns| :: conns[c].Idle? || conns[c].Closed?
  }

  lemma {:induction false} NobodyOn(conns: seq<Phase>, b: nat)
    requires AllAtRest(conns)
    ensures OnBackend(conns, b) == 0
  {
    if conns != [] {
      NobodyOn(conns[..|conns| - 1], b);
    }
  }

  lemma EmptyGate(conns: seq<Phase>, kind: Kind, g: Gates.Gate)
    requires AllAtRest(conns) && NoneLost(conns, kind, g)
    ensures g.owners == {} && g.cancelled == {} && g.queue == []
  {
    forall f: nat ensures Gates.Stand(g, f).Gone? {
      assert !Present(conns, Slot(kind, f));
    }
    assert forall f: nat :: f in g.owners ==> !Gates.Stand(g, f).Gone?;
    assert forall f: nat :: f in g.cancelled ==> !Gates.Stand(g, f).Gone?;
    assert forall f | f in g.queue :: !Gates.Stand(g, f).Gone?;
    SomeMember(g.queue);
  }

  lemma SomeMember(s: seq<nat>)
    ensures s != [] ==> exists f :: f in s
  {
    if s != [] {
      assert s[0] in s;
    }
  }

  /** Nothing leaks: whatever exits the connections took, once none is being served or
      waiting, nobody owns a slot or queues, no backend has anything in flight, and a gate's
      count is off zero by exactly the slots late handlers took off it; in a clean run it
      is zero. */
  lemma NothingLeaks(cfg: Config, events: seq<Event>, kind: Kind, b: nat)
    requires AllAtRest(Run(cfg, events).conns)
    ensures var w := Run(cfg, events);
            var g := GateOf(w, kind);
            && g.owners == {} && g.queue == [] && g.held == -Missing(g)
            && Get(w.inFlight, b) == 0
            && (CleanRun(cfg, events) ==> g.held == 0)
  {
    hide Run, CleanRun, OneBackendEach, AllFit, NoneLost, OnBackend;
    hide Gates.InOrder, Gates.Placed, Gates.Accounted, Gates.Full;
    AccountedInEveryRun(cfg, events);
    var w := Run(cfg, events);
    EmptyGate(w.conns, kind, GateOf(w, kind));
    NobodyOn(w.conns, b);
    assert InFlightAccounted(w, b);
    if CleanRun(cfg, events) {
      CleanCounts(cfg, events);
    }
  }

  // ---- late handlers over-admit ----------------------------------------------

  lemma RunPush(cfg: Config, events: seq<Event>, e: Event)
    ensures Run(cfg, events + [e]) == Step(Run(cfg, events), cfg, e)
  {
    assert (events + [e])[..|events|] == events;
  }

  const ONE_SLOT := Config(1, 1, true)

  /** What changes in the witness run. */
  function At(conns: seq<Phase>, g: Gates.Gate, inFlight: map<nat, int>, next: nat, sent: seq<(nat, nat)>): World {
    World(conns, g, Gates.Init(1), inFlight, {7}, next, sent)
  }

  function Picking(req: nat): Phase { Choosing(req, Some(Slot(Req, req)), false, {}, 0) }

  function Served(req: nat): Phase { Proxying(req, Some(Slot(Req, req)), false, 7) }

  /** Four clients connect, and there is one backend. */
  function FourClients(): seq<Event> {
    [] + [NewBackend(7)] + [Connect] + [Connect] + [Connect] + [Connect]
  }

  lemma AfterFourClients()
    ensures Run(ONE_SLOT, FourClients()) == At([Idle, Idle, Idle, Idle], Gates.Init(1), map[], 0, [])
  {
    hide Gates.Init;
    var e1: seq<Event> := [] + [NewBackend(7)];
    RunPush(ONE_SLOT, [], NewBackend(7));
    assert Run(ONE_SLOT, []) == World([], Gates.Init(1), Gates.Init(1), map[], {}, 0, []);
    assert Run(ONE_SLOT, e1) == At([], Gates.Init(1), map[], 0, []);
    RunPush(ONE_SLOT, e1, Connect);
    RunPush(ONE_SLOT, e1 + [Connect], Connect);
    RunPush(ONE_SLOT, e1 + [Connect] + [Connect], Connect);
    RunPush(ONE_SLOT, e1 + [Connect] + [Connect] + [Connect], Connect);
  }

  lemma SecondHangsUp()
    ensures var w := At([Idle, Idle, Idle, Idle], Gates.Init(1), map[], 0, []);
            var w1 := At([Picking(0), Idle, Idle, Idle], Gates.TAKEN, map[], 1, []);
            var w2 := At([Picking(0), Waiting(1, Slot(Req, 1)), Idle, Idle], Gates.ONE_WAITS, map[], 2, []);
            var w3 := At([Picking(0), HungUp(Slot(Req, 1)), Idle, Idle], Gates.HUNG_UP, map[], 2, []);
            && Step(w, ONE_SLOT, Request(0, Req)) == w1
            && Step(w1, ONE_SLOT, Request(1, Req)) == w2
            && Step(w2, ONE_SLOT, HangUp(1)) == w3
  {
    hide Gates.Step;
    Gates.UpToHangUp();
  }

  lemma SlotIsGivenTwice()
    ensures var w3 := At([Picking(0), HungUp(Slot(Req, 1)), Idle, Idle], Gates.HUNG_UP, map[], 2, []);
            var w4 := At([Closed, HungUp(Slot(Req, 1)), Idle, Idle], Gates.POPPED, map[], 2, []);
            var w5 := At([Closed, Closed, Idle, Idle], Gates.OVERDRAWN, map[], 2, []);
            var w6 := At([Closed, Closed, Picking(2), Idle], Gates.TAKEN_AGAIN, map[], 3, []);
            var w7 := At([Closed, Closed, Picking(2), Picking(3)], Gates.TAKEN_TWICE, map[], 4, []);
            && Step(w3, ONE_SLOT, NoBackend(0)) == w4
            && Step(w4, ONE_SLOT, Unwind(1)) == w5
            && Step(w5, ONE_SLOT, Request(2, Req)) == w6
            && Step(w6, ONE_SLOT, Request(3, Req)) == w7
  {
    hide Gates.Step;
    Gates.LateHandler();
  }

  lemma BothAreServed()
    ensures var w7 := At([Closed, Closed, Picking(2), Picking(3)], Gates.TAKEN_TWICE, map[], 4, []);
            var w8 := At([Closed, Closed, Served(2), Picking(3)], Gates.TAKEN_TWICE, map[7 := 1], 4, [(2, 7)]);
            var w9 := At([Closed, Closed, Served(2), Served(3)], Gates.TAKEN_TWICE, map[7 := 2], 4, [(2, 7), (3, 7)]);
            && Step(w7, ONE_SLOT, ConnectWorks(2, 7)) == w8
            && Step(w8, ONE_SLOT, ConnectWorks(3, 7)) == w9
  {
    hide Gates.Step, Gates.Init;
  }

  function OverdrawnRun(): seq<Event> {
    FourClients() + [Request(0, Req)] + [Request(1, Req)] + [HangUp(1)]
    + [NoBackend(0)] + [Unwind(1)] + [Request(2, Req)] + [Request(3, Req)]
    + [ConnectWorks(2, 7)] + [ConnectWorks(3, 7)]
  }

  /** One request slot: after a handler has run late two requests are in flight while the
      gate counts one, so the bound against the counts alone fails. */
  lemma InFlightCanExceedHeld()
    ensures var w := Run(ONE_SLOT, OverdrawnRun());
            && SumInFlight(w.inFlight, [7]) == 2
            && w.req.held == 1 && w.feed.held == 0 && OpenSockets(w.conns) == 0
            && Missing(w.req) == 1
  {
    hide Step;
    AfterFourClients();
    SecondHangsUp();
    SlotIsGivenTwice();
    BothAreServed();
    var e0 := FourClients();
    var e3 := e0 + [Request(0, Req)] + [Request(1, Req)] + [HangUp(1)];
    RunPush(ONE_SLOT, e0, Request(0, Req));
    RunPush(ONE_SLOT, e0 + [Request(0, Req)], Request(1, Req));
    RunPush(ONE_SLOT, e0 + [Request(0, Req)] + [Request(1, Req)], HangUp(1));
    var e5 := e3 + [NoBackend(0)] + [Unwind(1)];
    RunPush(ONE_SLOT, e3, NoBackend(0));
    RunPush(ONE_SLOT, e3 + [NoBackend(0)], Unwind(1));
    var e7 := e5 + [Request(2, Req)] + [Request(3, Req)];
    RunPush(ONE_SLOT, e5, Request(2, Req));
    RunPush(ONE_SLOT, e5 + [Request(2, Req)], Request(3, Req));
    RunPush(ONE_SLOT, e7, ConnectWorks(2, 7));
    RunPush(ONE_SLOT, e7 + [ConnectWorks(2, 7)], ConnectWorks(3, 7));
    var w := Run(ONE_SLOT, OverdrawnRun());
    SumOfOne(w.inFlight, 7);
    NoSockets(w.conns);
  }

  lemma SumOfOne(inFlight: map<nat, int>, b: nat)
    ensures SumInFlight(inFlight, [b]) == Get(inFlight, b)
  {
    assert [b][..0] == [];
  }

  lemma {:induction false} NoSockets(conns: seq<Phase>)
    requires forall c | 0 <= c < |conns| :: !OpenSocket(conns[c])
    ensures OpenSockets(conns) == 0
  {
    if conns != [] {
      NoSockets(conns[..|conns| - 1]);
    }
  }
}
