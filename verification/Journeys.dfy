/**
 * What becomes of one connection, from any state of the dispatcher that holds together
 * (lb/loadbalancer.py:1379-1486): a request that meets nothing in its way is admitted,
 * written to its backend, answered, and leaves no trace but the record of where it went.
 */
module Journeys {
  import opened Common
  import opened Dispatch
  import opened Seating
  import opened DispatchRuns
  import Gates = AdmissionGate

  /** The backends' counts are the same, except for one more on `b` if one is given. */
  ghost predicate CountsAre(now: map<nat, int>, was: map<nat, int>, b: Option<nat>) {
    forall x: nat :: Get(now, x) == Get(was, x) + if b == Some(x) then 1 else 0
  }

  /** Nothing but this gate, this connection and the record of sent requests differs. */
  ghost predicate OtherwiseSame(v: World, w: World, kind: Kind, c: nat) {
    && |v.conns| == |w.conns| && (forall d | 0 <= d < |w.conns| && d != c :: v.conns[d] == w.conns[d])
    && v.known == w.known
    && (kind.Req? ==> v.feed == w.feed) && (kind.Feed? ==> v.req == w.req)
  }

  // ---- at the gate -----------------------------------------------------------

  lemma FreeSlotIsTaken(g: Gates.Gate)
    requires Gates.Inv(g) && g.held < g.cap && g.queue == []
    ensures var h := Gates.Step(g, Gates.Arrive);
            && h.owners == g.owners + {g.next} && g.next !in g.owners
            && h.held == g.held + 1 && h.queue == [] && h.cap == g.cap && h.next == g.next + 1
  {
    Gates.ArrivalStands(g);
  }

  lemma SlotComesBack(g: Gates.Gate, f: nat)
    requires f in g.owners && g.queue == []
    ensures var h := Gates.Step(g, Gates.Release(f));
            && h.owners == g.owners - {f} && h.queue == [] && h.held == Max(0, g.held - 1) && h.cap == g.cap
  {
  }

  // ---- served ----------------------------------------------------------------

  /** With a slot free and nobody waiting, a request is admitted at once, written to the
      backend and answered; afterwards the connection is idle again and the slot is free. */
  lemma AdmittedIsServed(w: World, cfg: Config, c: nat, kind: Kind, b: nat)
    requires AllSeated(w) && cfg.admission && c < |w.conns| && w.conns[c].Idle? && b in w.known
    requires var g := GateOf(w, kind); g.held < g.cap && g.queue == []
    ensures var g := GateOf(w, kind);
            var served := Step(Step(w, cfg, Request(c, kind)), cfg, ConnectWorks(c, b));
            var done := Step(served, cfg, Finish(c, KeepAlive));
            && served.conns[c] == Proxying(w.next, Some(Slot(kind, g.next)), false, b)
            && CountsAre(served.inFlight, w.inFlight, Some(b)) && GateOf(served, kind).held == g.held + 1
            && done.conns == w.conns && OtherwiseSame(done, w, kind, c)
            && done.sent == w.sent + [(w.next, b)] && done.next == w.next + 1
            && CountsAre(done.inFlight, w.inFlight, None)
            && GateOf(done, kind).owners == g.owners && GateOf(done, kind).held == Max(0, g.held)
  {
    hide Gates.Step, Gates.Inv, AllFit, NoneLost, PlacesDistinct;
    var g := GateOf(w, kind);
    FreeSlotIsTaken(g);
    var h := Gates.Step(g, Gates.Arrive);
    SlotComesBack(h, g.next);
    var admitted := Step(w, cfg, Request(c, kind));
    assert admitted.conns[c] == Choosing(w.next, Some(Slot(kind, g.next)), false, {}, 0);
    var served := Step(admitted, cfg, ConnectWorks(c, b));
    var done := Step(served, cfg, Finish(c, KeepAlive));
    assert done.conns == w.conns;
  }

  /** A waiter that was granted goes on with its slot when it resumes; a reply that closes
      the connection gives the slot back all the same. */
  lemma WaiterIsServed(w: World, cfg: Config, c: nat, b: nat)
    requires AllSeated(w) && c < |w.conns| && w.conns[c].Waiting? && b in w.known
    requires w.conns[c].place.fut in GateOf(w, w.conns[c].place.kind).owners
    ensures var p := w.conns[c];
            var served := Step(Step(w, cfg, Resume(c)), cfg, ConnectWorks(c, b));
            var done := Step(served, cfg, Finish(c, Close));
            && served.conns[c] == Proxying(p.req, Some(p.place), false, b)
            && CountsAre(served.inFlight, w.inFlight, Some(b))
            && done.conns == w.conns[c := Closed] && OtherwiseSame(done, w, p.place.kind, c)
            && done.sent == w.sent + [(p.req, b)] && done.next == w.next
            && CountsAre(done.inFlight, w.inFlight, None)
            && Gates.Stand(GateOf(done, p.place.kind), p.place.fut).Gone?
  {
    hide Gates.Step, Gates.Inv, AllFit, NoneLost, PlacesDistinct, Gates.Stand;
    var p := w.conns[c];
    Gates.LeavesTheGate(GateOf(w, p.place.kind), Gates.Release(p.place.fut));
  }

  /** One that was not granted yet does not move. */
  lemma UngrantedStays(w: World, cfg: Config, c: nat)
    requires c < |w.conns| && w.conns[c].Waiting?
    requires w.conns[c].place.fut !in GateOf(w, w.conns[c].place.kind).owners
    ensures Step(w, cfg, Resume(c)) == w
  {
  }

  /** A failed connect is charged to nobody and never repeated; the next backend serves. */
  lemma RetriedElsewhere(w: World, cfg: Config, c: nat, dead: nat, b: nat)
    requires c < |w.conns| && w.conns[c].Choosing? && dead != b
    requires Eligible(w, w.conns[c], dead) && Eligible(w, w.conns[c], b)
    ensures var p := w.conns[c];
            var failed := Step(w, cfg, ConnectFails(c, dead));
            var served := Step(failed, cfg, ConnectWorks(c, b));
            && failed.inFlight == w.inFlight && failed.sent == w.sent
            && Step(failed, cfg, ConnectWorks(c, dead)) == failed && Step(failed, cfg, ConnectFails(c, dead)) == failed
            && served.conns == w.conns[c := Proxying(p.req, p.slot, p.ws, b)]
            && CountsAre(served.inFlight, w.inFlight, Some(b)) && served.sent == w.sent + [(p.req, b)]
            && served.req == w.req && served.feed == w.feed && served.known == w.known && served.next == w.next
  {
  }

  /** A WebSocket passes both gates by, and closes however it ends. */
  lemma SocketPassesBy(w: World, cfg: Config, c: nat, b: nat, exit: Exit)
    requires c < |w.conns| && w.conns[c].Idle? && b in w.known
    ensures var served := Step(Step(w, cfg, Upgrade(c)), cfg, ConnectWorks(c, b));
            var done := Step(served, cfg, Finish(c, exit));
            && OpenSocket(served.conns[c]) && served.conns[c].backend == b && CountsAre(served.inFlight, w.inFlight, Some(b))
            && done.conns == w.conns[c := Closed] && CountsAre(done.inFlight, w.inFlight, None)
            && done.sent == w.sent + [(w.next, b)] && done.next == w.next + 1
            && served.req == done.req == w.req && served.feed == done.feed == w.feed
  {
  }

  /** With admission off so does a request, and its connection may be kept. */
  lemma UngatedIsServed(w: World, cfg: Config, c: nat, kind: Kind, b: nat)
    requires !cfg.admission && c < |w.conns| && w.conns[c].Idle? && b in w.known
    ensures var served := Step(Step(w, cfg, Request(c, kind)), cfg, ConnectWorks(c, b));
            var done := Step(served, cfg, Finish(c, KeepAlive));
            && served.conns[c] == Proxying(w.next, None, false, b) && CountsAre(served.inFlight, w.inFlight, Some(b))
            && done.conns == w.conns && CountsAre(done.inFlight, w.inFlight, None)
            && done.sent == w.sent + [(w.next, b)] && done.req == w.req && done.feed == w.feed
  {
    var done := Step(Step(Step(w, cfg, Request(c, kind)), cfg, ConnectWorks(c, b)), cfg, Finish(c, KeepAlive));
    assert done.conns == w.conns;
  }

  // ---- not served ------------------------------------------------------------

  /** With no slot free a request waits its turn; hanging up then leaves the gate. */
  lemma HangUpLeaves(w: World, cfg: Config, c: nat, kind: Kind)
    requires AllSeated(w) && cfg.admission && c < |w.conns| && w.conns[c].Idle?
    requires var g := GateOf(w, kind); g.held >= g.cap
    ensures var fut := GateOf(w, kind).next;
            var waits := Step(w, cfg, Request(c, kind));
            var gone := Step(Step(waits, cfg, HangUp(c)), cfg, Unwind(c));
            && waits.conns == w.conns[c := Waiting(w.next, Slot(kind, fut))]
            && GateOf(waits, kind).queue == GateOf(w, kind).queue + [fut]
            && gone.conns == w.conns[c := Closed] && OtherwiseSame(gone, w, kind, c)
            && GateOf(gone, kind).queue == GateOf(w, kind).queue && GateOf(gone, kind).held == GateOf(w, kind).held
            && gone.sent == w.sent && gone.inFlight == w.inFlight
  {
    hide Gates.Inv, AllFit, NoneLost, PlacesDistinct;
    var g := GateOf(w, kind);
    WaitsAndLeaves(g);
  }

  lemma WaitsAndLeaves(g: Gates.Gate)
    requires Gates.Inv(g) && g.held >= g.cap
    ensures var waits := Gates.Step(g, Gates.Arrive);
            var cancelled := Gates.Step(waits, Gates.Cancel(g.next));
            var gone := Gates.Step(cancelled, Gates.Unwind(g.next));
            && g.next !in waits.owners && waits.queue == g.queue + [g.next]
            && g.next in cancelled.cancelled
            && gone.queue == g.queue && gone.held == g.held
  {
    Gates.ArrivalStands(g);
    assert (g.queue + [g.next])[|g.queue|] == g.next;
    LastOut(g.queue, g.next);
  }

  lemma {:induction false} LastOut(queue: seq<nat>, f: nat)
    requires f !in queue
    ensures Gates.Without(queue + [f], f) == queue
  {
    if queue == [] {
      assert ([f])[1..] == [];
    } else {
      LastOut(queue[1..], f);
      assert (queue + [f])[1..] == queue[1..] + [f];
    }
  }

  /** A request no backend can take is dropped, and its slot given back. */
  lemma NoBackendLeaves(w: World, cfg: Config, c: nat)
    requires AllSeated(w) && c < |w.conns| && w.conns[c].Choosing?
    ensures var p := w.conns[c];
            var gone := Step(w, cfg, NoBackend(c));
            && gone.conns == w.conns[c := Closed] && gone.sent == w.sent && gone.inFlight == w.inFlight
            && (p.slot.Some? ==> Gates.Stand(GateOf(gone, p.slot.value.kind), p.slot.value.fut).Gone?
                                 && OtherwiseSame(gone, w, p.slot.value.kind, c))
            && (p.slot.None? ==> gone.req == w.req && gone.feed == w.feed)
  {
    hide Gates.Step, Gates.Inv, NoneLost, PlacesDistinct, Gates.Stand;
    var p := w.conns[c];
    if p.slot.Some? {
      var kind, fut := p.slot.value.kind, p.slot.value.fut;
      FitsHere(w.conns, kind, GateOf(w, kind), c);
      StandOwner(GateOf(w, kind), fut, p);
      Gates.LeavesTheGate(GateOf(w, kind), Gates.Release(fut));
    }
  }

  lemma StandOwner(g: Gates.Gate, f: nat, p: Phase)
    requires p.Choosing? && Fits(p, Gates.Stand(g, f))
    ensures f in g.owners
  {
  }

  /** A resize reaches its gate and nothing else. */
  lemma ResizeReaches(w: World, cfg: Config, kind: Kind, capacity: int)
    ensures var v := Step(w, cfg, Resize(kind, capacity));
            && GateOf(v, kind).cap == Max(1, capacity)
            && (kind.Req? ==> v == w.(req := v.req)) && (kind.Feed? ==> v == w.(feed := v.feed))
  {
    Gates.WakeWithinCap(Gates.Resized(GateOf(w, kind), capacity));
  }

  /** The capacity last asked for at a gate. */
  function LastAsked(cfg: Config, events: seq<Event>, kind: Kind): int {
    if events == [] then (if kind.Req? then cfg.reqSlots else cfg.feedSlots)
    else
      var e := events[|events| - 1];
      if e.Resize? && e.kind == kind then e.capacity else LastAsked(cfg, events[..|events| - 1], kind)
  }

  /** Whatever connections do, each gate has the capacity last asked for there, at least one. */
  lemma {:induction false} CapacityIsLastAsked(cfg: Config, events: seq<Event>, kind: Kind)
    ensures GateOf(Run(cfg, events), kind).cap == Max(1, LastAsked(cfg, events, kind))
  {
    hide Gates.Step, Moved, Bump, Sends, NumbersOne;
    if events != [] {
      var front, e := events[..|events| - 1], events[|events| - 1];
      CapacityIsLastAsked(cfg, front, kind);
      var act := ActOf(Run(cfg, front), cfg, e);
      if act.Some? {
        Gates.StepCapacity(GateOf(Run(cfg, front), kind), act.value.event);
      }
    }
  }
}
