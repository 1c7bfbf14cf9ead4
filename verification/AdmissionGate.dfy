/**
 * The admission gate of the balancer (lb/loadbalancer.py:146-239): bounded concurrency
 * with a first-in-first-out queue, resizing, and cancellation of a queued waiter.
 *
 * Futures are numbered in arrival order.  Cancelling a waiter takes two steps, as in the
 * event loop: `Cancel` marks its future done at once, `Unwind` is its handler running
 * later.  A wake-up between the two pops the cancelled future without counting it, and
 * the handler then gives back a slot it never had.
 */
module AdmissionGate {
  import opened Common

  /** `popped` are cancelled futures taken off the queue whose handler has yet to run;
      `lost` counts slots such handlers gave back, `clamped` what release put back when
      the count would have gone below zero. */
  datatype Gate = Gate(
    cap: int, held: int, queue: seq<nat>, cancelled: set<nat>, popped: set<nat>, quit: set<nat>,
    owners: set<nat>, grants: seq<nat>, next: nat, lost: nat, clamped: nat)

  datatype Event =
    | Arrive
    | Release(f: nat)
    | GiveBack(f: nat)
    | Cancel(f: nat)
    | Unwind(f: nat)
    | Resize(capacity: int)

  function Init(capacity: int): Gate {
    Gate(Max(1, capacity), 0, [], {}, {}, {}, {}, [], 0, 0, 0)
  }

  function Grant(g: Gate, f: nat): Gate {
    g.(held := g.held + 1, owners := g.owners + {f}, grants := g.grants + [f])
  }

  /** Take one future off the queue. */
  function Pop(g: Gate): Gate
    requires g.queue != []
  {
    var f := g.queue[0];
    var h := g.(queue := g.queue[1..]);
    if f in g.cancelled then h.(popped := h.popped + {f}) else Grant(h, f)
  }

  /** Hand free slots to the longest waiting. */
  function Wake(g: Gate): Gate
    decreases |g.queue|
  {
    if g.queue != [] && g.held < g.cap then Wake(Pop(g)) else g
  }

  function Without(queue: seq<nat>, f: nat): seq<nat> {
    if queue == [] then []
    else if queue[0] == f then queue[1..]
    else [queue[0]] + Without(queue[1..], f)
  }

  function Released(g: Gate, f: nat): Gate {
    var h := g.(owners := g.owners - {f});
    if g.held - 1 < 0 then h.(held := 0, clamped := h.clamped + (1 - g.held)) else h.(held := g.held - 1)
  }

  function GivenBack(g: Gate, f: nat): Gate {
    g.(owners := g.owners - {f}, held := g.held - 1)
  }

  /** What a handler that no longer finds its future queued does. */
  function Missed(g: Gate, f: nat): Gate {
    g.(cancelled := g.cancelled - {f}, popped := g.popped - {f}, held := g.held - 1, lost := g.lost + 1)
  }

  function Resized(g: Gate, capacity: int): Gate {
    g.(cap := Max(1, capacity))
  }

  function Step(g: Gate, e: Event): Gate {
    match e
    case Arrive =>
      var h := g.(next := g.next + 1);
      if g.held < g.cap && g.queue == [] then Grant(h, g.next) else h.(queue := g.queue + [g.next])
    case Release(f) => if f in g.owners then Wake(Released(g, f)) else g
    case GiveBack(f) =>
      if f in g.owners then Wake(GivenBack(g, f)) else g
    case Cancel(f) => if f in g.queue then g.(cancelled := g.cancelled + {f}, quit := g.quit + {f}) else g
    case Unwind(f) =>
      if f !in g.cancelled then g
      else if f in g.queue
      then g.(cancelled := g.cancelled - {f}, popped := g.popped - {f}, queue := Without(g.queue, f))
      else Wake(Missed(g, f))
    case Resize(capacity) => if Max(1, capacity) == g.cap then g else Wake(Resized(g, capacity))
  }

  function Run(capacity: int, events: seq<Event>): Gate {
    if events == [] then Init(capacity) else Step(Run(capacity, events[..|events| - 1]), events[|events| - 1])
  }

  // ---- invariant -------------------------------------------------------------

  ghost predicate Increasing(s: seq<nat>) {
    forall i, j :: 0 <= i < j < |s| ==> s[i] < s[j]
  }

  /** Arrival order: grants in order, waiters in order, and every grant before every waiter. */
  ghost predicate InOrder(g: Gate) {
    && Increasing(g.grants) && Increasing(g.queue)
    && (forall a, b | a in g.grants && b in g.queue :: a < b)
    && (forall a | a in g.grants || a in g.queue :: a < g.next)
  }

  /** Who is where: owners were granted, a cancelled future is queued or popped. */
  ghost predicate Placed(g: Gate) {
    && (forall f | f in g.owners :: f in g.grants && f !in g.cancelled)
    && (forall f | f in g.cancelled :: f in g.quit && (f in g.queue || f in g.popped))
    && (forall f | f in g.popped :: f in g.cancelled && f !in g.queue && f < g.next)
  }

  /** Nobody is forgotten: every arrival was granted, still waits or was cancelled. */
  ghost predicate Accounted(g: Gate) {
    forall f | 0 <= f < g.next :: f in g.grants || f in g.queue || f in g.quit
  }

  /** The count is the number of owners, less what was given back wrongly and not yet
      made up for. */
  ghost predicate Counted(g: Gate) {
    g.held == |g.owners| - g.lost + g.clamped && g.clamped <= g.lost && g.cap >= 1
  }

  ghost predicate Full(g: Gate) {
    g.queue != [] ==> g.held >= g.cap
  }

  ghost predicate Inv(g: Gate) {
    InOrder(g) && Placed(g) && Accounted(g) && Counted(g) && Full(g)
  }

  // ---- waking ----------------------------------------------------------------

  lemma PopInOrder(g: Gate)
    requires g.queue != [] && InOrder(g)
    ensures InOrder(Pop(g))
    ensures g.queue[0] !in g.queue[1..] && g.queue[0] !in g.grants && g.queue[0] < g.next
  {
    var f, rest := g.queue[0], g.queue[1..];
    assert f in g.queue;
    forall b | b in rest ensures b in g.queue && f < b {
      var i :| 0 <= i < |rest| && rest[i] == b;
      assert g.queue[i + 1] == b;
    }
    forall a | a in g.grants ensures a < f {
    }
    SnocIncreasing(g.grants, f);
    assert Increasing(rest);
  }

  lemma PopPlaced(g: Gate)
    requires g.queue != [] && InOrder(g) && Placed(g) && Accounted(g)
    ensures Placed(Pop(g)) && Accounted(Pop(g))
  {
    PopInOrder(g);
    assert forall b | b in g.queue :: b == g.queue[0] || b in g.queue[1..];
    assert g.queue[0] !in g.cancelled ==> Pop(g).grants[|g.grants|] == g.queue[0];
  }

  lemma PopCounted(g: Gate)
    requires g.queue != [] && InOrder(g) && Placed(g) && Counted(g)
    ensures Counted(Pop(g))
  {
    PopInOrder(g);
    assert g.queue[0] !in g.owners;
  }

  /** Waking leaves nobody waiting beside a free slot, and grants in arrival order exactly
      the non-cancelled among those it takes off the queue. */
  lemma {:induction false} WakeKeeps(g: Gate)
    requires InOrder(g) && Placed(g) && Accounted(g) && Counted(g)
    ensures Inv(Wake(g))
    ensures Wake(g).lost == g.lost && Wake(g).clamped == g.clamped && Wake(g).cancelled == g.cancelled
    ensures Wake(g).popped <= g.popped + g.cancelled
    decreases |g.queue|
  {
    if g.queue != [] && g.held < g.cap {
      PopInOrder(g);
      PopPlaced(g);
      PopCounted(g);
      WakeKeeps(Pop(g));
    }
  }

  // ---- steps -----------------------------------------------------------------

  lemma {:induction false} WithoutMembers(queue: seq<nat>, f: nat)
    requires Increasing(queue)
    ensures Increasing(Without(queue, f))
    ensures forall b :: b in Without(queue, f) <==> b in queue && b != f
  {
    if queue != [] {
      var rest := queue[1..];
      assert queue == [queue[0]] + rest;
      forall b | b in rest ensures queue[0] < b {
        var i :| 0 <= i < |rest| && rest[i] == b;
        assert queue[i + 1] == b;
      }
      WithoutMembers(rest, f);
      ConsIncreasing(queue[0], Without(rest, f));
    }
  }

  lemma ConsIncreasing(x: nat, s: seq<nat>)
    requires Increasing(s) && forall b | b in s :: x < b
    ensures Increasing([x] + s)
  {
    forall j | 0 <= j < |s| ensures x < s[j] {
      assert s[j] in s;
    }
  }

  lemma SnocIncreasing(s: seq<nat>, x: nat)
    requires Increasing(s) && forall b | b in s :: b < x
    ensures Increasing(s + [x])
  {
    forall j | 0 <= j < |s| ensures s[j] < x {
      assert s[j] in s;
    }
  }

  lemma ArriveInOrder(g: Gate)
    requires InOrder(g)
    ensures InOrder(Step(g, Arrive))
  {
    SnocIncreasing(g.grants, g.next);
    SnocIncreasing(g.queue, g.next);
  }

  lemma ArrivePlaced(g: Gate)
    requires InOrder(g) && Placed(g)
    ensures Placed(Step(g, Arrive))
  {
    hide Increasing;
    assert g.next !in g.owners && g.next !in g.cancelled && g.next !in g.popped;
    assert (g.grants + [g.next])[|g.grants|] == g.next;
  }

  lemma ArriveAccounted(g: Gate)
    requires Accounted(g)
    ensures Accounted(Step(g, Arrive))
  {
    assert (g.grants + [g.next])[|g.grants|] == g.next && (g.queue + [g.next])[|g.queue|] == g.next;
  }

  lemma ArriveCounted(g: Gate)
    requires InOrder(g) && Placed(g) && Counted(g) && Full(g)
    ensures Counted(Step(g, Arrive)) && Full(Step(g, Arrive))
  {
    hide Increasing;
    assert g.next !in g.owners;
  }

  lemma ArriveKeepsInv(g: Gate)
    requires Inv(g)
    ensures Inv(Step(g, Arrive))
  {
    hide InOrder, Placed, Accounted, Counted, Step;
    ArriveInOrder(g);
    ArrivePlaced(g);
    ArriveAccounted(g);
    ArriveCounted(g);
  }

  lemma UnwindKeepsInv(g: Gate, f: nat)
    requires Inv(g) && f in g.cancelled
    ensures Inv(Step(g, Unwind(f)))
  {
    hide Wake;
    if f in g.queue {
      WithoutMembers(g.queue, f);
    } else {
      WakeKeeps(Missed(g, f));
    }
  }

  lemma GiveUpKeepsInv(g: Gate, f: nat)
    requires Inv(g) && f in g.owners
    ensures Inv(Step(g, Release(f)))
    ensures Inv(Step(g, GiveBack(f)))
  {
    WakeKeeps(Released(g, f));
    WakeKeeps(GivenBack(g, f));
  }

  lemma StepKeepsInv(g: Gate, e: Event)
    requires Inv(g)
    ensures Inv(Step(g, e))
  {
    match e
    case Arrive => ArriveKeepsInv(g);
    case Release(f) => if f in g.owners { GiveUpKeepsInv(g, f); }
    case GiveBack(f) => if f in g.owners { GiveUpKeepsInv(g, f); }
    case Cancel(f) =>
    case Unwind(f) => if f in g.cancelled { UnwindKeepsInv(g, f); }
    case Resize(capacity) =>
      if Max(1, capacity) != g.cap { WakeKeeps(Resized(g, capacity)); }
  }

  // ---- main results ----------------------------------------------------------

  /** In every run, even with cancellations unwinding late: nobody waits beside a free
      slot, grants are in arrival order and ahead of everyone waiting, and the count
      differs from the number of owners by exactly what late handlers gave back. */
  lemma {:induction false} GateInEveryRun(capacity: int, events: seq<Event>)
    ensures Inv(Run(capacity, events))
  {
    if events != [] {
      GateInEveryRun(capacity, events[..|events| - 1]);
      StepKeepsInv(Run(capacity, events[..|events| - 1]), events[|events| - 1]);
    }
  }

  /** Whatever happened, the count is the owners less the slots handlers gave back wrongly
      plus what the clamp put back, and it never exceeds the owners. */
  lemma CountDiffersBy(capacity: int, events: seq<Event>)
    ensures var g := Run(capacity, events);
            g.held == |g.owners| - g.lost + g.clamped && g.held <= |g.owners|
  {
    GateInEveryRun(capacity, events);
  }

  /** The failing branch: the handler of a cancelled wait no longer finds its future queued. */
  predicate Misses(g: Gate, e: Event) {
    e.Unwind? && e.f in g.cancelled && e.f !in g.queue
  }

  /** Every handler of a cancelled wait that runs still finds its future in the queue. */
  predicate CleanRun(capacity: int, events: seq<Event>) {
    events == []
    || (var front, e := events[..|events| - 1], events[|events| - 1];
        CleanRun(capacity, front) && !Misses(Run(capacity, front), e))
  }

  /** Only a handler that misses loses a slot, and it loses one. */
  lemma LostStep(g: Gate, e: Event)
    requires Inv(g)
    ensures Step(g, e).lost == g.lost + if Misses(g, e) then 1 else 0
    ensures e.Unwind? ==> Step(g, e).clamped == g.clamped
  {
    hide Wake, Increasing;
    match e
    case Release(f) => if f in g.owners { WakeKeeps(Released(g, f)); }
    case GiveBack(f) => if f in g.owners { WakeKeeps(GivenBack(g, f)); }
    case Unwind(f) =>
      if Misses(g, e) {
        WakeKeeps(Missed(g, f));
      }
    case Resize(c) => if Max(1, c) != g.cap { WakeKeeps(Resized(g, c)); }
    case _ =>
  }

  /** An exact count stays exact over a cancel handler if and only if the handler still
      finds its future in the queue. */
  lemma UnwindExactly(g: Gate, f: nat)
    requires Inv(g) && f in g.cancelled && g.held == |g.owners|
    ensures var h := Step(g, Unwind(f)); h.held == |h.owners| <==> f in g.queue
  {
    hide Step, InOrder, Placed, Accounted, Full;
    StepKeepsInv(g, Unwind(f));
    LostStep(g, Unwind(f));
  }

  /** A run has lost no slot if and only if no cancel handler in it missed. */
  lemma {:induction false} LostExactly(capacity: int, events: seq<Event>)
    ensures Run(capacity, events).lost == 0 <==> CleanRun(capacity, events)
  {
    hide Step, Misses, Inv;
    if events != [] {
      var front, e := events[..|events| - 1], events[|events| - 1];
      LostExactly(capacity, front);
      GateInEveryRun(capacity, front);
      LostStep(Run(capacity, front), e);
    }
  }

  /** At every moment of the run. */
  predicate ExactThroughout(capacity: int, events: seq<Event>) {
    Exact(Run(capacity, events)) && (events != [] ==> ExactThroughout(capacity, events[..|events| - 1]))
  }

  predicate Exact(g: Gate) { g.held == |g.owners| }

  lemma CleanCountIsExact(capacity: int, events: seq<Event>)
    requires CleanRun(capacity, events)
    ensures Exact(Run(capacity, events)) && Run(capacity, events).clamped == 0
  {
    LostExactly(capacity, events);
    GateInEveryRun(capacity, events);
  }

  /** The count equals the number of slot owners at every moment of a run if and only if
      every cancel handler in it still found its future in the queue. */
  lemma {:induction false} CountExactly(capacity: int, events: seq<Event>)
    ensures ExactThroughout(capacity, events) <==> CleanRun(capacity, events)
  {
    hide Step, Exact, Misses, Inv;
    if events == [] {
      CleanCountIsExact(capacity, []);
    } else {
      var front, e := events[..|events| - 1], events[|events| - 1];
      CountExactly(capacity, front);
      if CleanRun(capacity, events) {
        CleanCountIsExact(capacity, events);
      }
      GateInEveryRun(capacity, front);
      MissBreaksExact(Run(capacity, front), e);
    }
  }

  lemma MissBreaksExact(g: Gate, e: Event)
    ensures Inv(g) && Exact(g) && Misses(g, e) ==> !Exact(Step(g, e))
  {
    if Inv(g) && Exact(g) && Misses(g, e) {
      UnwindExactly(g, e.f);
    }
  }

  /** Cancellation is atomic: once a future is cancelled its handler is what runs next. */
  predicate AtomicCancel(capacity: int, events: seq<Event>) {
    events == []
    || (var front, e := events[..|events| - 1], events[|events| - 1];
        AtomicCancel(capacity, front) && (Run(capacity, front).cancelled != {} ==> e.Unwind?))
  }

  lemma AtomicStep(g: Gate, e: Event)
    requires Inv(g) && g.lost == 0 && g.popped == {}
    requires g.cancelled != {} ==> e.Unwind?
    ensures Inv(Step(g, e)) && Step(g, e).lost == 0 && Step(g, e).popped == {}
  {
    hide Wake, Increasing;
    StepKeepsInv(g, e);
    match e
    case Release(f) => if f in g.owners { WakeKeeps(Released(g, f)); }
    case GiveBack(f) => if f in g.owners { WakeKeeps(GivenBack(g, f)); }
    case Resize(c) => if Max(1, c) != g.cap { WakeKeeps(Resized(g, c)); }
    case _ =>
  }

  lemma {:induction false} AtomicLosesNothing(capacity: int, events: seq<Event>)
    requires AtomicCancel(capacity, events)
    ensures var g := Run(capacity, events);
            g.lost == 0 && g.popped == {} && Inv(g)
  {
    if events != [] {
      var front, e := events[..|events| - 1], events[|events| - 1];
      AtomicLosesNothing(capacity, front);
      AtomicStep(Run(capacity, front), e);
    }
  }

  /** When no cancel handler misses: the count equals the number of slot owners, a step
      that grants leaves no more owners than the capacity, nobody waits beside a free slot,
      grants follow arrival order, and the clamp in release is never reached. */
  lemma GateWithCleanCancel(capacity: int, events: seq<Event>)
    requires CleanRun(capacity, events)
    ensures var g := Run(capacity, events);
            && g.held == |g.owners| && g.clamped == 0
            && (g.queue != [] ==> |g.owners| >= g.cap)
            && Increasing(g.grants)
            && (forall a, b | a in g.grants && b in g.queue :: a < b)
            && (forall f | 0 <= f < g.next :: f in g.grants || f in g.queue || f in g.quit)
    ensures events != [] && Run(capacity, events[..|events| - 1]).grants != Run(capacity, events).grants
            ==> |Run(capacity, events).owners| <= Run(capacity, events).cap
  {
    CleanCountIsExact(capacity, events);
    GateInEveryRun(capacity, events);
    if events != [] {
      NoGrantAtCapacity(Run(capacity, events[..|events| - 1]), events[|events| - 1]);
    }
  }

  /** Atomic cancellation is one way to that. */
  lemma GateWithAtomicCancel(capacity: int, events: seq<Event>)
    requires AtomicCancel(capacity, events)
    ensures CleanRun(capacity, events)
    ensures var g := Run(capacity, events);
            && g.held == |g.owners| && g.clamped == 0
            && (g.queue != [] ==> |g.owners| >= g.cap)
            && Increasing(g.grants)
            && (forall a, b | a in g.grants && b in g.queue :: a < b)
            && (forall f | 0 <= f < g.next :: f in g.grants || f in g.queue || f in g.quit)
    ensures events != [] && Run(capacity, events[..|events| - 1]).grants != Run(capacity, events).grants
            ==> |Run(capacity, events).owners| <= Run(capacity, events).cap
  {
    hide Run, Increasing, CleanRun;
    AtomicLosesNothing(capacity, events);
    LostExactly(capacity, events);
    GateWithCleanCancel(capacity, events);
  }

  lemma {:induction false} WakeWithinCap(g: Gate)
    ensures var h := Wake(g);
            && h.cap == g.cap && g.grants <= h.grants
            && h.held - g.held == |h.grants| - |g.grants|
            && (h.grants != g.grants ==> h.held <= h.cap)
    decreases |g.queue|
  {
    if g.queue != [] && g.held < g.cap {
      WakeWithinCap(Pop(g));
    }
  }

  /** No step admits anyone past the capacity: whenever a step grants, the slots counted
      held after it are within the capacity, and earlier grants stand. */
  lemma NoGrantAtCapacity(g: Gate, e: Event)
    ensures var h := Step(g, e);
            g.grants <= h.grants && (h.grants != g.grants ==> h.held <= h.cap)
  {
    match e
    case Release(f) => WakeWithinCap(Released(g, f));
    case GiveBack(f) => WakeWithinCap(GivenBack(g, f));
    case Unwind(f) => WakeWithinCap(Missed(g, f));
    case Resize(c) => WakeWithinCap(Resized(g, c));
    case _ =>
  }

  /** Release never leaves the count below zero: what it would have fallen short by is made
      up for, and that is the only time it is. */
  lemma ReleaseClamps(g: Gate, f: nat)
    requires Inv(g) && f in g.owners
    ensures var h := Step(g, Release(f));
            h.held >= 0 && h.clamped == g.clamped + Max(0, 1 - g.held) && h.lost == g.lost
  {
    WakeKeeps(Released(g, f));
    WakeWithinCap(Released(g, f));
    GrantsOnlyAdd(Released(g, f));
  }

  lemma {:induction false} GrantsOnlyAdd(g: Gate)
    ensures Wake(g).held >= g.held
    decreases |g.queue|
  {
    if g.queue != [] && g.held < g.cap {
      GrantsOnlyAdd(Pop(g));
    }
  }

  /** The capacity last asked for. */
  function LastCapacity(capacity: int, events: seq<Event>): int {
    if events == [] then capacity
    else
      var e := events[|events| - 1];
      if e.Resize? then e.capacity else LastCapacity(capacity, events[..|events| - 1])
  }

  /** After any run the capacity is the one last asked for, at least one; nothing but a
      resize changes it. */
  lemma {:induction false} CapacityIsLastAsked(capacity: int, events: seq<Event>)
    ensures Run(capacity, events).cap == Max(1, LastCapacity(capacity, events))
  {
    if events != [] {
      var front, e := events[..|events| - 1], events[|events| - 1];
      CapacityIsLastAsked(capacity, front);
      StepCapacity(Run(capacity, front), e);
    }
  }

  lemma StepCapacity(g: Gate, e: Event)
    ensures Step(g, e).cap == if e.Resize? then Max(1, e.capacity) else g.cap
  {
    match e
    case Release(f) => WakeWithinCap(Released(g, f));
    case GiveBack(f) => WakeWithinCap(GivenBack(g, f));
    case Unwind(f) => WakeWithinCap(Missed(g, f));
    case Resize(c) => WakeWithinCap(Resized(g, c));
    case _ =>
  }

  // ---- where one future stands -----------------------------------------------

  datatype Standing = Owner | Queued | Cancelled | Gone

  function Stand(g: Gate, f: nat): Standing {
    if f in g.owners then Owner else if f in g.cancelled then Cancelled else if f in g.queue then Queued else Gone
  }

  /** What may become of a future by a step that is not about it: it may be granted. */
  predicate Stays(was: Standing, now: Standing) {
    was == now || (was.Queued? && now.Owner?)
  }

  lemma PopStands(g: Gate, f: nat)
    requires g.queue != [] && InOrder(g)
    ensures Stays(Stand(g, f), Stand(Pop(g), f))
  {
    PopInOrder(g);
    assert f in g.queue <==> f == g.queue[0] || f in g.queue[1..];
  }

  ghost predicate CanWake(g: Gate) {
    InOrder(g) && Placed(g) && Accounted(g) && Counted(g)
  }

  lemma BeforeWaking(g: Gate, f: nat, capacity: int)
    requires Inv(g)
    ensures f in g.owners ==> CanWake(Released(g, f)) && CanWake(GivenBack(g, f))
    ensures f in g.cancelled && f !in g.queue ==> CanWake(Missed(g, f))
    ensures CanWake(Resized(g, capacity))
  {
    hide Increasing;
  }

  lemma {:induction false} WakeStands(g: Gate, f: nat)
    requires CanWake(g)
    ensures Stays(Stand(g, f), Stand(Wake(g), f))
    decreases |g.queue|
  {
    hide Pop, InOrder, Placed, Accounted, Counted, Stand;
    if g.queue != [] && g.held < g.cap {
      PopInOrder(g);
      PopPlaced(g);
      PopCounted(g);
      PopStands(g, f);
      PopShortens(g);
      WakeStands(Pop(g), f);
    }
  }

  lemma PopShortens(g: Gate)
    requires g.queue != []
    ensures |Pop(g).queue| == |g.queue| - 1
  {
  }

  /** The future a step is about. */
  function Subject(g: Gate, e: Event): (f: nat)
    requires !e.Resize?
  {
    if e.Arrive? then g.next else e.f
  }

  lemma OthersStay(g: Gate, e: Event, f: nat)
    requires Inv(g) && (e.Resize? || f != Subject(g, e))
    ensures Stays(Stand(g, f), Stand(Step(g, e), f))
  {
    hide Wake, CanWake;
    if e.Resize? { BeforeWaking(g, 0, e.capacity); } else if !e.Arrive? { BeforeWaking(g, e.f, 1); }
    hide InOrder, Accounted, Placed, Counted;
    match e
    case Arrive =>
    case Release(x) => if x in g.owners { WakeStands(Released(g, x), f); }
    case GiveBack(x) => if x in g.owners { WakeStands(GivenBack(g, x), f); }
    case Cancel(x) =>
    case Unwind(x) =>
      if x in g.queue {
        WithoutOthers(g.queue, x, f);
      } else if x in g.cancelled {
        WakeStands(Missed(g, x), f);
      }
    case Resize(c) => if Max(1, c) != g.cap { WakeStands(Resized(g, c), f); }
  }

  lemma WithoutOthers(queue: seq<nat>, x: nat, f: nat)
    requires f != x
    ensures f in Without(queue, x) <==> f in queue
  {
  }

  /** An arrival is granted or queued, and nobody had its number before. */
  lemma ArrivalStands(g: Gate)
    requires Inv(g)
    ensures Stand(g, g.next).Gone?
    ensures Stand(Step(g, Arrive), g.next) in {Owner, Queued}
  {
    hide Increasing, Accounted;
    assert g.next !in g.owners && g.next !in g.cancelled && g.next !in g.queue;
    assert (g.queue + [g.next])[|g.queue|] == g.next;
  }

  /** A slot given back, and a cancelled wait whose handler has run, are gone. */
  lemma LeavesTheGate(g: Gate, e: Event)
    requires Inv(g) && (e.Release? || e.GiveBack? || e.Unwind?)
    requires if e.Unwind? then e.f in g.cancelled else e.f in g.owners
    ensures Stand(Step(g, e), e.f).Gone?
  {
    hide Wake, CanWake, Accounted, Counted, Increasing;
    BeforeWaking(g, e.f, 1);
    match e
    case Release(f) => WakeStands(Released(g, f), f);
    case GiveBack(f) => WakeStands(GivenBack(g, f), f);
    case Unwind(f) =>
      if f in g.queue {
        WithoutMembers(g.queue, f);
      } else {
        WakeStands(Missed(g, f), f);
      }
  }

  // ---- late unwinding over-admits --------------------------------------------

  lemma RunPush(capacity: int, events: seq<Event>, e: Event)
    ensures Run(capacity, events + [e]) == Step(Run(capacity, events), e)
  {
    assert (events + [e])[..|events|] == events;
  }

  /** A gate of one slot: taken, with one waiter behind it, the waiter hanging up. */
  const TAKEN := Gate(1, 1, [], {}, {}, {}, {0}, [0], 1, 0, 0)
  const ONE_WAITS := Gate(1, 1, [1], {}, {}, {}, {0}, [0], 2, 0, 0)
  const HUNG_UP := Gate(1, 1, [1], {1}, {}, {1}, {0}, [0], 2, 0, 0)

  /** The slot is released past the cancelled waiter, whose handler then gives it back. */
  const POPPED := Gate(1, 0, [], {1}, {1}, {1}, {}, [0], 2, 0, 0)
  const OVERDRAWN := Gate(1, -1, [], {}, {}, {1}, {}, [0], 2, 1, 0)

  /** Two more arrive. */
  const TAKEN_AGAIN := Gate(1, 0, [], {}, {}, {1}, {2}, [0, 2], 3, 1, 0)
  const TAKEN_TWICE := Gate(1, 1, [], {}, {}, {1}, {2, 3}, [0, 2, 3], 4, 1, 0)

  lemma UpToHangUp()
    ensures Step(Init(1), Arrive) == TAKEN
    ensures Step(TAKEN, Arrive) == ONE_WAITS
    ensures Step(ONE_WAITS, Cancel(1)) == HUNG_UP
  {
  }

  lemma LateHandler()
    ensures Step(HUNG_UP, Release(0)) == POPPED
    ensures Step(POPPED, Unwind(1)) == OVERDRAWN
    ensures Step(OVERDRAWN, Arrive) == TAKEN_AGAIN
    ensures Step(TAKEN_AGAIN, Arrive) == TAKEN_TWICE
  {
    var free := Gate(1, 0, [1], {1}, {}, {1}, {}, [0], 2, 0, 0);
    assert Released(HUNG_UP, 0) == free;
    assert Pop(free) == POPPED;
    assert Missed(POPPED, 1) == OVERDRAWN;
  }

  function LateUnwind(): seq<Event> {
    [] + [Arrive] + [Arrive] + [Cancel(1)] + [Release(0)] + [Unwind(1)] + [Arrive] + [Arrive]
  }

  /** One slot: a waiter is cancelled, a release pops it uncounted, its handler then gives
      a slot back, and the next two arrivals are both admitted. */
  lemma LateUnwindOverAdmits()
    ensures var g := Run(1, LateUnwind());
            g.cap == 1 && g.owners == {2, 3} && |g.owners| == 2 && g.held == 1
  {
    hide Step;
    UpToHangUp();
    LateHandler();
    var e1: seq<Event> := [] + [Arrive];
    var e2 := e1 + [Arrive];
    var e3 := e2 + [Cancel(1)];
    var e4 := e3 + [Release(0)];
    var e5 := e4 + [Unwind(1)];
    RunPush(1, [], Arrive);
    RunPush(1, e1, Arrive);
    RunPush(1, e2, Cancel(1));
    RunPush(1, e3, Release(0));
    RunPush(1, e4, Unwind(1));
    RunPush(1, e5, Arrive);
    RunPush(1, e5 + [Arrive], Arrive);
  }
}
