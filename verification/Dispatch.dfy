/**
 * Dispatching requests to backends (lb/loadbalancer.py:1379-1486) over any interleaving
 * of connections, with the two admission gates (lines 146-239) as they are: waiters that
 * hang up, handlers that run late, releases that clamp, resizing while requests wait.
 */
module Dispatch {
  import opened Common
  import Gates = AdmissionGate

  datatype Kind = Req | Feed

  /** A future of one gate: a place in its queue, then a slot. */
  datatype Slot = Slot(kind: Kind, fut: nat)

  /** Where a connection stands.  `Waiting` lasts until its coroutine resumes, so a waiter may
      have been granted already; `HungUp` is cancelled and its handler has yet to run;
      `slot` is None for a WebSocket or with admission off; `req` numbers the request. */
  datatype Phase =
    | Idle
    | Waiting(req: nat, place: Slot)
    | HungUp(place: Slot)
    | Choosing(req: nat, slot: Option<Slot>, ws: bool, tried: set<nat>, attempts: nat)
    | Proxying(req: nat, slot: Option<Slot>, ws: bool, backend: nat)
    | Closed

  /** `sent` records to which backend each request's bytes were written. */
  datatype World = World(
    conns: seq<Phase>, req: Gates.Gate, feed: Gates.Gate,
    inFlight: map<nat, int>, known: set<nat>, next: nat, sent: seq<(nat, nat)>)

  datatype Config = Config(reqSlots: int, feedSlots: int, admission: bool)

  /** How a proxied exchange ends: on a kept connection, or on one that closes (a reply
      asking for it, an upstream failure before or after the reply head, a hang-up). */
  datatype Exit = KeepAlive | Close

  datatype Event =
    | Connect
    | Request(c: nat, kind: Kind)
    | Upgrade(c: nat)
    | Resume(c: nat)
    | HangUp(c: nat)
    | Unwind(c: nat)
    | ConnectFails(c: nat, backend: nat)
    | ConnectWorks(c: nat, backend: nat)
    | NoBackend(c: nat)
    | Finish(c: nat, exit: Exit)
    | Resize(kind: Kind, capacity: int)
    | NewBackend(id: nat)

  function Init(cfg: Config): World {
    World([], Gates.Init(cfg.reqSlots), Gates.Init(cfg.feedSlots), map[], {}, 0, [])
  }

  // ---- steps -----------------------------------------------------------------

  function GateOf(w: World, kind: Kind): Gates.Gate {
    if kind.Req? then w.req else w.feed
  }

  /** What a step does to a gate. */
  datatype Act = Act(kind: Kind, event: Gates.Event)

  function Leaving(slot: Option<Slot>): Option<Act> {
    match slot
    case None => None
    case Some(s) => Some(Act(s.kind, Gates.Release(s.fut)))
  }

  /** The gate a step acts on, if any: at most one. */
  function ActOf(w: World, cfg: Config, e: Event): Option<Act> {
    match e
    case Resize(kind, capacity) => Some(Act(kind, Gates.Resize(capacity)))
    case Connect => None
    case NewBackend(_) => None
    case _ =>
      if e.c >= |w.conns| then None
      else
        var p := w.conns[e.c];
        match e
        case Request(_, kind) => if p.Idle? && cfg.admission then Some(Act(kind, Gates.Arrive)) else None
        case HangUp(_) => if p.Waiting? then Some(Act(p.place.kind, Gates.Cancel(p.place.fut))) else None
        case Unwind(_) =>
          if !p.HungUp? then None
          else if p.place.fut in GateOf(w, p.place.kind).cancelled
          then Some(Act(p.place.kind, Gates.Unwind(p.place.fut)))
          else Some(Act(p.place.kind, Gates.GiveBack(p.place.fut)))
        case NoBackend(_) => if p.Choosing? then Leaving(p.slot) else None
        case Finish(_, _) => if p.Proxying? then Leaving(p.slot) else None
        case _ => None
  }

  /** The gate of one kind after a step. */
  function GateAfter(w: World, cfg: Config, e: Event, kind: Kind): Gates.Gate {
    var act := ActOf(w, cfg, e);
    if act.Some? && act.value.kind == kind then Gates.Step(GateOf(w, kind), act.value.event) else GateOf(w, kind)
  }

  /** A backend may be tried while it is known and was not tried for this request. */
  predicate Eligible(w: World, p: Phase, backend: nat) {
    p.Choosing? && backend in w.known && backend !in p.tried
  }

  /** The next phase of the connection a step is about. */
  function Moved(w: World, cfg: Config, e: Event, p: Phase): Phase {
    match e
    case Request(_, kind) =>
      if !p.Idle? then p
      else if !cfg.admission then Choosing(w.next, None, false, {}, 0)
      else
        var place := Slot(kind, GateOf(w, kind).next);
        if place.fut in GateAfter(w, cfg, e, kind).owners then Choosing(w.next, Some(place), false, {}, 0)
        else Waiting(w.next, place)
    case Upgrade(_) => if p.Idle? then Choosing(w.next, None, true, {}, 0) else p
    case Resume(_) =>
      if p.Waiting? && p.place.fut in GateOf(w, p.place.kind).owners
      then Choosing(p.req, Some(p.place), false, {}, 0) else p
    case HangUp(_) => if p.Waiting? then HungUp(p.place) else p
    case Unwind(_) => if p.HungUp? then Closed else p
    case ConnectFails(_, b) =>
      if Eligible(w, p, b) then p.(tried := p.tried + {b}, attempts := p.attempts + 1) else p
    case ConnectWorks(_, b) => if Eligible(w, p, b) then Proxying(p.req, p.slot, p.ws, b) else p
    case NoBackend(_) => if p.Choosing? then Closed else p
    case Finish(_, exit) => if !p.Proxying? then p else if exit.KeepAlive? && !p.ws then Idle else Closed
    case _ => p
  }

  predicate About(w: World, e: Event) {
    !e.Connect? && !e.Resize? && !e.NewBackend? && e.c < |w.conns|
  }

  function ConnsAfter(w: World, cfg: Config, e: Event): seq<Phase> {
    if e.Connect? then w.conns + [Idle]
    else if About(w, e) then w.conns[e.c := Moved(w, cfg, e, w.conns[e.c])]
    else w.conns
  }

  function Bump(m: map<nat, int>, b: nat, delta: int): map<nat, int> {
    m[b := (if b in m then m[b] else 0) + delta]
  }

  predicate Sends(w: World, e: Event) {
    e.ConnectWorks? && About(w, e) && Eligible(w, w.conns[e.c], e.backend)
  }

  predicate NumbersOne(w: World, e: Event) {
    (e.Request? || e.Upgrade?) && About(w, e) && w.conns[e.c].Idle?
  }

  function Step(w: World, cfg: Config, e: Event): World {
    World(
      ConnsAfter(w, cfg, e),
      GateAfter(w, cfg, e, Req),
      GateAfter(w, cfg, e, Feed),
      if Sends(w, e) then Bump(w.inFlight, e.backend, 1)
      else if e.Finish? && About(w, e) && w.conns[e.c].Proxying? then Bump(w.inFlight, w.conns[e.c].backend, -1)
      else w.inFlight,
      if e.NewBackend? then w.known + {e.id} else w.known,
      if NumbersOne(w, e) then w.next + 1 else w.next,
      if Sends(w, e) then w.sent + [(w.conns[e.c].req, e.backend)] else w.sent)
  }

  function Run(cfg: Config, events: seq<Event>): World {
    if events == [] then Init(cfg)
    else Step(Run(cfg, events[..|events| - 1]), cfg, events[|events| - 1])
  }

  // ---- counting connections --------------------------------------------------

  /** The connection travels in a slot of this gate. */
  predicate Holds(p: Phase, kind: Kind) {
    (p.Choosing? || p.Proxying?) && p.slot.Some? && p.slot.value.kind == kind
  }

  predicate On(p: Phase, backend: nat) { p.Proxying? && p.backend == backend }

  predicate OpenSocket(p: Phase) { p.Proxying? && p.ws }

  function HoldingOf(conns: seq<Phase>, kind: Kind): nat {
    if conns == [] then 0
    else HoldingOf(conns[..|conns| - 1], kind) + if Holds(conns[|conns| - 1], kind) then 1 else 0
  }

  function OnBackend(conns: seq<Phase>, backend: nat): nat {
    if conns == [] then 0
    else OnBackend(conns[..|conns| - 1], backend) + if On(conns[|conns| - 1], backend) then 1 else 0
  }

  function ProxyingAll(conns: seq<Phase>): nat {
    if conns == [] then 0
    else ProxyingAll(conns[..|conns| - 1]) + if conns[|conns| - 1].Proxying? then 1 else 0
  }

  function OpenSockets(conns: seq<Phase>): nat {
    if conns == [] then 0
    else OpenSockets(conns[..|conns| - 1]) + if OpenSocket(conns[|conns| - 1]) then 1 else 0
  }

  lemma {:induction false} OnBackendMove(conns: seq<Phase>, c: nat, p: Phase, b: nat)
    requires c < |conns|
    ensures OnBackend(conns[c := p], b)
            == OnBackend(conns, b) - (if On(conns[c], b) then 1 else 0) + (if On(p, b) then 1 else 0)
  {
    var n := |conns| - 1;
    if c < n {
      OnBackendMove(conns[..n], c, p, b);
      assert conns[c := p][..n] == conns[..n][c := p];
    } else {
      assert conns[c := p][..n] == conns[..n];
    }
  }

  lemma IdleIsNowhere(conns: seq<Phase>, b: nat)
    ensures OnBackend(conns + [Idle], b) == OnBackend(conns, b)
  {
    assert (conns + [Idle])[..|conns|] == conns;
  }
}
