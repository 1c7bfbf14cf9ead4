/**
 * Who sits at a gate: the connections that wait for it or travel in its slots are exactly
 * the futures in its queue and slots, whatever order cancel handlers run in
 * (lb/loadbalancer.py:189-233, 1383-1391, 1484-1486).
 */
module Seating {
  import opened Common
  import opened Dispatch
  import Gates = AdmissionGate

  // ---- who is at a gate ------------------------------------------------------

  function PlaceOf(p: Phase): Option<Slot> {
    match p
    case Waiting(_, place) => Some(place)
    case HungUp(place) => Some(place)
    case Choosing(_, slot, _, _, _) => slot
    case Proxying(_, slot, _, _) => slot
    case _ => None
  }

  /** Where the gate has a future, and where its connection believes to be, go together. */
  predicate Fits(p: Phase, s: Gates.Standing) {
    match s
    case Owner => true
    case Queued => p.Waiting?
    case Cancelled => p.HungUp?
    case Gone => false
  }

  ghost predicate Present(conns: seq<Phase>, place: Slot) {
    exists c :: 0 <= c < |conns| && PlaceOf(conns[c]) == Some(place)
  }

  /** No two connections share a future. */
  ghost predicate PlacesDistinct(conns: seq<Phase>) {
    forall c, d :: 0 <= c < d < |conns| && PlaceOf(conns[c]).Some? ==> PlaceOf(conns[c]) != PlaceOf(conns[d])
  }

  /** Every connection at this gate is where the gate has it. */
  ghost predicate AllFit(conns: seq<Phase>, kind: Kind, g: Gates.Gate) {
    forall c | 0 <= c < |conns| && PlaceOf(conns[c]).Some? && PlaceOf(conns[c]).value.kind == kind ::
      Fits(conns[c], Gates.Stand(g, PlaceOf(conns[c]).value.fut))
  }

  /** Nothing leaks: whoever the gate has in its queue or in a slot is a connection. */
  ghost predicate NoneLost(conns: seq<Phase>, kind: Kind, g: Gates.Gate) {
    forall f: nat :: Gates.Stand(g, f).Gone? || Present(conns, Slot(kind, f))
  }

  ghost predicate Seated(conns: seq<Phase>, kind: Kind, g: Gates.Gate) {
    Gates.Inv(g) && AllFit(conns, kind, g) && NoneLost(conns, kind, g)
  }

  /** A move that keeps a connection's future, drops it, or takes one nobody has. */
  ghost predicate MovesPlace(conns: seq<Phase>, c: nat, p: Phase)
    requires c < |conns|
  {
    PlaceOf(p).Some? ==> PlaceOf(p) == PlaceOf(conns[c]) || !Present(conns, PlaceOf(p).value)
  }

  lemma MoveKeepsDistinct(conns: seq<Phase>, c: nat, p: Phase)
    requires c < |conns| && PlacesDistinct(conns) && MovesPlace(conns, c, p)
    ensures PlacesDistinct(conns[c := p])
  {
    hide PlaceOf;
  }

  lemma MovePresent(conns: seq<Phase>, c: nat, p: Phase, place: Slot)
    requires c < |conns| && Present(conns, place) && PlaceOf(conns[c]) != Some(place)
    ensures Present(conns[c := p], place)
  {
    hide PlaceOf;
    var d :| 0 <= d < |conns| && PlaceOf(conns[d]) == Some(place);
    assert conns[c := p][d] == conns[d];
  }

  /** Whatever a gate does about others, a connection still fits: at most it was granted. */
  lemma StillFits(p: Phase, was: Gates.Standing, now: Gates.Standing)
    requires Fits(p, was) && Gates.Stays(was, now)
    ensures Fits(p, now)
  {
  }

  /** A step of a gate about the future of connection `c`. */
  lemma MoveKeepsSeated(conns: seq<Phase>, kind: Kind, g: Gates.Gate, e: Gates.Event, c: nat, p: Phase)
    requires c < |conns| && Seated(conns, kind, g) && PlacesDistinct(conns) && !e.Resize?
    requires var s := Slot(kind, Gates.Subject(g, e)); PlaceOf(conns[c]) == Some(s) || Gates.Stand(g, s.fut).Gone?
    requires PlaceOf(conns[c]).Some? ==> PlaceOf(conns[c]).value == Slot(kind, Gates.Subject(g, e))
    requires var s, now := Slot(kind, Gates.Subject(g, e)), Gates.Stand(Gates.Step(g, e), Gates.Subject(g, e));
      if PlaceOf(p) == None then now.Gone? else PlaceOf(p) == Some(s) && Fits(p, now)
    ensures Seated(conns[c := p], kind, Gates.Step(g, e))
  {
    hide Gates.Step, Gates.Inv, Gates.Stand, Fits, PlaceOf, Gates.Subject;
    var h, f := Gates.Step(g, e), Gates.Subject(g, e);
    Gates.StepKeepsInv(g, e);
    var more := conns[c := p];
    forall d | 0 <= d < |more| && PlaceOf(more[d]).Some? && PlaceOf(more[d]).value.kind == kind
      ensures Fits(more[d], Gates.Stand(h, PlaceOf(more[d]).value.fut))
    {
      if d != c {
        OtherPlace(conns, kind, g, c, d, f);
        Gates.OthersStay(g, e, PlaceOf(conns[d]).value.fut);
        StillFits(conns[d], Gates.Stand(g, PlaceOf(conns[d]).value.fut), Gates.Stand(h, PlaceOf(conns[d]).value.fut));
      }
    }
    forall x: nat | !Gates.Stand(h, x).Gone?
      ensures Present(conns[c := p], Slot(kind, x))
    {
      if x == f {
        assert PlaceOf(conns[c := p][c]) == Some(Slot(kind, f));
      } else {
        Gates.OthersStay(g, e, x);
        WasThere(Gates.Stand(g, x), Gates.Stand(h, x));
        MovePresent(conns, c, p, Slot(kind, x));
      }
    }
  }

  lemma WasThere(was: Gates.Standing, now: Gates.Standing)
    requires Gates.Stays(was, now) && !now.Gone?
    ensures !was.Gone?
  {
  }

  /** Another connection at the gate has another future. */
  lemma OtherPlace(conns: seq<Phase>, kind: Kind, g: Gates.Gate, c: nat, d: nat, f: nat)
    requires c < |conns| && d < |conns| && c != d && PlacesDistinct(conns) && AllFit(conns, kind, g)
    requires PlaceOf(conns[c]) == Some(Slot(kind, f)) || Gates.Stand(g, f).Gone?
    requires PlaceOf(conns[d]).Some? && PlaceOf(conns[d]).value.kind == kind
    ensures PlaceOf(conns[d]).value.fut != f
  {
    hide PlaceOf, Gates.Stand;
    if PlaceOf(conns[c]) == Some(Slot(kind, f)) {
      assert PlaceOf(conns[d]) != PlaceOf(conns[c]);
    } else {
      assert Fits(conns[d], Gates.Stand(g, PlaceOf(conns[d]).value.fut));
    }
  }

  /** A move beside the gate: same future, and still fitting where the gate has it. */
  lemma MoveBesideGate(conns: seq<Phase>, kind: Kind, g: Gates.Gate, c: nat, p: Phase)
    requires c < |conns| && Seated(conns, kind, g)
    requires AtGate(conns[c], kind) || AtGate(p, kind) ==> PlaceOf(p) == PlaceOf(conns[c])
    requires AtGate(p, kind) ==> Fits(p, Gates.Stand(g, PlaceOf(p).value.fut))
    ensures Seated(conns[c := p], kind, g)
  {
    hide Gates.Inv, Gates.Stand, Fits, PlaceOf;
    forall x: nat | !Gates.Stand(g, x).Gone?
      ensures Present(conns[c := p], Slot(kind, x))
    {
      if PlaceOf(conns[c]) == Some(Slot(kind, x)) {
        assert PlaceOf(conns[c := p][c]) == Some(Slot(kind, x));
      } else {
        MovePresent(conns, c, p, Slot(kind, x));
      }
    }
  }

  predicate AtGate(p: Phase, kind: Kind) {
    PlaceOf(p).Some? && PlaceOf(p).value.kind == kind
  }

  lemma ResizeKeepsSeated(conns: seq<Phase>, kind: Kind, g: Gates.Gate, capacity: int)
    requires Seated(conns, kind, g)
    ensures Seated(conns, kind, Gates.Step(g, Gates.Resize(capacity)))
  {
    hide Gates.Step, Gates.Inv, Gates.Stand, Fits, PlaceOf;
    var e := Gates.Resize(capacity);
    Gates.StepKeepsInv(g, e);
    forall f: nat ensures Gates.Stays(Gates.Stand(g, f), Gates.Stand(Gates.Step(g, e), f)) {
      Gates.OthersStay(g, e, f);
    }
    forall d | 0 <= d < |conns| && PlaceOf(conns[d]).Some? && PlaceOf(conns[d]).value.kind == kind
      ensures Fits(conns[d], Gates.Stand(Gates.Step(g, e), PlaceOf(conns[d]).value.fut))
    {
      var f := PlaceOf(conns[d]).value.fut;
      StillFits(conns[d], Gates.Stand(g, f), Gates.Stand(Gates.Step(g, e), f));
    }
  }

  lemma ConnectKeepsSeated(conns: seq<Phase>, kind: Kind, g: Gates.Gate)
    requires Seated(conns, kind, g) && PlacesDistinct(conns)
    ensures Seated(conns + [Idle], kind, g) && PlacesDistinct(conns + [Idle])
  {
    hide Gates.Inv, Gates.Stand, Fits;
    forall x: nat | !Gates.Stand(g, x).Gone?
      ensures Present(conns + [Idle], Slot(kind, x))
    {
      var d :| 0 <= d < |conns| && PlaceOf(conns[d]) == Some(Slot(kind, x));
      assert (conns + [Idle])[d] == conns[d];
    }
  }

  // ---- every step keeps the seats --------------------------------------------

  ghost predicate AllSeated(w: World) {
    PlacesDistinct(w.conns) && Seated(w.conns, Req, w.req) && Seated(w.conns, Feed, w.feed)
  }

  /** Nobody has the future the next arrival will get. */
  lemma NextIsFree(conns: seq<Phase>, kind: Kind, g: Gates.Gate)
    requires Seated(conns, kind, g)
    ensures Gates.Stand(g, g.next).Gone? && !Present(conns, Slot(kind, g.next))
  {
    hide Gates.Inv, Gates.Stand;
    Gates.ArrivalStands(g);
    forall c | 0 <= c < |conns| ensures PlaceOf(conns[c]) != Some(Slot(kind, g.next)) {
      if AtGate(conns[c], kind) {
        assert Fits(conns[c], Gates.Stand(g, PlaceOf(conns[c]).value.fut));
      }
    }
  }

  lemma FitsHere(conns: seq<Phase>, kind: Kind, g: Gates.Gate, c: nat)
    requires Seated(conns, kind, g) && c < |conns| && AtGate(conns[c], kind)
    ensures Fits(conns[c], Gates.Stand(g, PlaceOf(conns[c]).value.fut))
  {
  }

  /** The gate a connection deals with: what the step does there matches the move. */
  lemma ActsOnItsOwn(w: World, cfg: Config, e: Event, kind: Kind)
    requires AllSeated(w) && About(w, e) && ActOf(w, cfg, e).Some? && ActOf(w, cfg, e).value.kind == kind
    ensures var p, q := w.conns[e.c], Moved(w, cfg, e, w.conns[e.c]);
            var g, x := GateOf(w, kind), ActOf(w, cfg, e).value.event;
            && !x.Resize?
            && var s, now := Slot(kind, Gates.Subject(g, x)), Gates.Stand(Gates.Step(g, x), Gates.Subject(g, x));
               && (PlaceOf(p) == Some(s) || (PlaceOf(p) == None && Gates.Stand(g, s.fut).Gone? && !Present(w.conns, s)))
               && (if PlaceOf(q) == None then now.Gone? else PlaceOf(q) == Some(s) && Fits(q, now))
  {
    hide Gates.Step, Gates.Inv, AllFit, NoneLost, PlacesDistinct, Present, Eligible;
    var p, g, x := w.conns[e.c], GateOf(w, kind), ActOf(w, cfg, e).value.event;
    if e.Request? {
      NextIsFree(w.conns, kind, g);
      Gates.ArrivalStands(g);
    } else {
      FitsHere(w.conns, kind, g, e.c);
      if x.Cancel? {
        CancelStands(g, x.f);
      } else {
        Gates.LeavesTheGate(g, x);
      }
    }
  }

  /** Hanging up while queued cancels the future; a granted one keeps its slot for now. */
  lemma CancelStands(g: Gates.Gate, f: nat)
    requires Gates.Inv(g) && Gates.Stand(g, f) in {Gates.Owner, Gates.Queued}
    ensures Gates.Stand(Gates.Step(g, Gates.Cancel(f)), f) in {Gates.Owner, Gates.Cancelled}
  {
    hide Gates.InOrder, Gates.Accounted, Gates.Counted, Gates.Full;
  }

  /** A gate the step leaves alone: the connection keeps its future, if it has one there. */
  lemma LeavesAlone(w: World, cfg: Config, e: Event, kind: Kind)
    requires AllSeated(w) && About(w, e)
    requires ActOf(w, cfg, e).None? || ActOf(w, cfg, e).value.kind != kind
    ensures var p, q := w.conns[e.c], Moved(w, cfg, e, w.conns[e.c]);
      && (AtGate(p, kind) || AtGate(q, kind) ==> PlaceOf(q) == PlaceOf(p))
      && (AtGate(q, kind) ==> Fits(q, Gates.Stand(GateOf(w, kind), PlaceOf(q).value.fut)))
  {
    hide Gates.Step, Gates.Inv, AllFit, NoneLost, PlacesDistinct, Present;
    var p := w.conns[e.c];
    if AtGate(p, kind) {
      FitsHere(w.conns, kind, GateOf(w, kind), e.c);
    }
  }

  lemma StepKeepsSeat(w: World, cfg: Config, e: Event, kind: Kind)
    requires AllSeated(w) && About(w, e)
    ensures Seated(ConnsAfter(w, cfg, e), kind, GateAfter(w, cfg, e, kind))
  {
    hide Gates.Step, Gates.Inv, Seated, PlaceOf, Fits, ActOf, Moved, Gates.Stand, Gates.Subject, PlacesDistinct;
    var act, g := ActOf(w, cfg, e), GateOf(w, kind);
    assert Seated(w.conns, kind, g);
    if act.Some? && act.value.kind == kind {
      ActsOnItsOwn(w, cfg, e, kind);
      MoveKeepsSeated(w.conns, kind, g, act.value.event, e.c, Moved(w, cfg, e, w.conns[e.c]));
    } else {
      LeavesAlone(w, cfg, e, kind);
      MoveBesideGate(w.conns, kind, g, e.c, Moved(w, cfg, e, w.conns[e.c]));
    }
  }

  lemma StepMovesPlace(w: World, cfg: Config, e: Event)
    requires AllSeated(w) && About(w, e)
    ensures MovesPlace(w.conns, e.c, Moved(w, cfg, e, w.conns[e.c]))
  {
    hide Gates.Step, Seated, PlaceOf, Fits, ActOf, Moved, Gates.Stand, Gates.Subject, PlacesDistinct, Present;
    var act, q := ActOf(w, cfg, e), Moved(w, cfg, e, w.conns[e.c]);
    if act.Some? {
      ActsOnItsOwn(w, cfg, e, act.value.kind);
    } else if PlaceOf(q).Some? {
      LeavesAlone(w, cfg, e, PlaceOf(q).value.kind);
    }
  }

  lemma StepKeepsSeated(w: World, cfg: Config, e: Event)
    requires AllSeated(w)
    ensures AllSeated(Step(w, cfg, e))
  {
    hide Gates.Step, Seated, Moved, PlacesDistinct, Bump, Sends, NumbersOne;
    if About(w, e) {
      StepKeepsSeat(w, cfg, e, Req);
      StepKeepsSeat(w, cfg, e, Feed);
      StepMovesPlace(w, cfg, e);
      MoveKeepsDistinct(w.conns, e.c, Moved(w, cfg, e, w.conns[e.c]));
    } else if e.Connect? {
      ConnectKeepsSeated(w.conns, Req, w.req);
      ConnectKeepsSeated(w.conns, Feed, w.feed);
    } else if e.Resize? {
      ResizeKeepsSeated(w.conns, e.kind, GateOf(w, e.kind), e.capacity);
    }
  }

  lemma InitSeated(cfg: Config)
    ensures AllSeated(Init(cfg))
  {
    Gates.GateInEveryRun(cfg.reqSlots, []);
    Gates.GateInEveryRun(cfg.feedSlots, []);
  }
}
