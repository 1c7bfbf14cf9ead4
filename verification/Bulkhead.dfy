/**
 * The admission gate as the balancer runs it (lb/loadbalancer.py:169-233), proved against
 * the specification in `AdmissionGate`.
 */
module Bulkhead {
  import opened Common
  import opened AdmissionGate

  class Bulkhead {
    var cap: int
    var held: int
    var waiters: seq<nat>
    var queuedNow: int
    var queuedPeak: int
    /** Futures that are done because their task was cancelled. */
    var cancelled: set<nat>
    var next: nat
    ghost var popped: set<nat>
    ghost var quit: set<nat>
    ghost var owners: set<nat>
    ghost var grants: seq<nat>
    ghost var lost: nat
    ghost var clamped: nat

    ghost function View(): Gate
      reads this
    {
      Gate(cap, held, waiters, cancelled, popped, quit, owners, grants, next, lost, clamped)
    }

    ghost predicate Valid()
      reads this
    {
      Inv(View()) && queuedNow == |waiters| <= queuedPeak
    }

    constructor (capacity: int)
      ensures Valid() && View() == Init(capacity) && queuedPeak == 0
      ensures cap == Max(1, capacity)
    {
      cap := if capacity >= 1 then capacity else 1;
      held, waiters, queuedNow, queuedPeak, cancelled, next := 0, [], 0, 0, {}, 0;
      popped, quit, owners, grants, lost, clamped := {}, {}, {}, [], 0, 0;
    }

    /** Hand free slots to whoever has waited longest, skipping futures already done. */
    method WakeUp()
      requires queuedNow == |waiters| <= queuedPeak
      modifies this
      ensures View() == Wake(old(View()))
      ensures queuedNow == |waiters| <= queuedPeak && queuedPeak == old(queuedPeak) && cap == old(cap)
    {
      hide InOrder, Placed, Accounted, Counted, Full, Inv;
      while waiters != [] && held < cap
        invariant Wake(View()) == Wake(old(View()))
        invariant queuedNow == |waiters| <= queuedPeak && queuedPeak == old(queuedPeak) && cap == old(cap)
        decreases |waiters|
      {
        ghost var before := View();
        var fut := waiters[0];
        waiters := waiters[1..];
        queuedNow := queuedNow - 1;
        if fut !in cancelled {
          held := held + 1;
          owners, grants := owners + {fut}, grants + [fut];
        } else {
          popped := popped + {fut};
        }
        assert View() == Pop(before);
      }
    }

    method ResizeTo(capacity: int)
      requires Valid()
      modifies this
      ensures Valid() && View() == Step(old(View()), Resize(capacity))
      ensures cap == Max(1, capacity)
    {
      hide InOrder, Placed, Accounted, Full;
      StepKeepsInv(View(), Resize(capacity));
      var wanted := if capacity >= 1 then capacity else 1;
      if wanted == cap {
        return;
      }
      cap := wanted;
      WakeUp();
    }

    /** The part of acquire before it waits: admitted at once, or queued behind `fut`. */
    method Acquire() returns (fut: nat, admitted: bool)
      requires Valid()
      modifies this
      ensures Valid() && View() == Step(old(View()), Arrive)
      ensures fut == old(next) && (admitted <==> fut in owners) && (!admitted <==> fut in waiters)
      ensures admitted <==> old(held) < old(cap) && old(waiters) == []
      ensures queuedPeak == Max(old(queuedPeak), |waiters|)
    {
      hide Accounted, Counted, Full, Increasing;
      StepKeepsInv(View(), Arrive);
      fut := next;
      next := next + 1;
      if held < cap && waiters == [] {
        held := held + 1;
        owners, grants := owners + {fut}, grants + [fut];
        return fut, true;
      }
      waiters := waiters + [fut];
      queuedNow := queuedNow + 1;
      if queuedNow > queuedPeak {
        queuedPeak := queuedNow;
      }
      admitted := false;
      assert View().queue[|waiters| - 1] == fut;
    }

    /** The client hangs up while queued: its future is done from now on. */
    method CancelFuture(fut: nat)
      requires Valid()
      modifies this`cancelled, this`quit
      ensures Valid() && View() == Step(old(View()), Cancel(fut))
    {
      StepKeepsInv(View(), Cancel(fut));
      if fut in waiters {
        cancelled := cancelled + {fut};
        quit := quit + {fut};
      }
    }

    /** The handler of a cancelled wait: leave the queue, or else give a slot back. */
    method UnwindCancelled(fut: nat)
      requires Valid() && fut in cancelled
      modifies this
      ensures Valid() && View() == Step(old(View()), Unwind(fut))
    {
      hide InOrder, Placed, Accounted, Counted, Full;
      StepKeepsInv(View(), Unwind(fut));
      cancelled := cancelled - {fut};
      popped := popped - {fut};
      if fut in waiters {
        RemoveShortens(waiters, fut);
        waiters := Without(waiters, fut);
        queuedNow := queuedNow - 1;
      } else {
        held := held - 1;
        lost := lost + 1;
        WakeUp();
      }
    }

    /** A waiter already granted its slot is cancelled before it resumes. */
    method GiveSlotBack(fut: nat)
      requires Valid() && fut in owners
      modifies this
      ensures Valid() && View() == Step(old(View()), GiveBack(fut))
    {
      StepKeepsInv(View(), GiveBack(fut));
      held := held - 1;
      owners := owners - {fut};
      WakeUp();
    }

    method ReleaseSlot(ghost fut: nat)
      requires Valid() && fut in owners
      modifies this
      ensures Valid() && View() == Step(old(View()), Release(fut))
      ensures old(lost) == 0 ==> clamped == old(clamped)
    {
      hide InOrder, Placed, Accounted, Full;
      StepKeepsInv(View(), Release(fut));
      assert |owners| >= 1;
      owners := owners - {fut};
      held := held - 1;
      if held < 0 {
        clamped := clamped - held;
        held := 0;
      }
      ghost var settled := View();
      WakeKeepsCounts(settled);
      WakeUp();
    }

    /** Slots held and requests waiting: what the balancer calls busy. */
    method Busy() returns (n: int)
      requires Valid()
      ensures n == |owners| - lost + clamped + |waiters|
    {
      n := held + queuedNow;
    }
  }

  lemma RemoveShortens(queue: seq<nat>, f: nat)
    requires f in queue
    ensures |Without(queue, f)| == |queue| - 1
  {
    if queue[0] != f {
      RemoveShortens(queue[1..], f);
    }
  }

  lemma {:induction false} WakeKeepsCounts(g: Gate)
    ensures Wake(g).clamped == g.clamped && Wake(g).lost == g.lost
    decreases |g.queue|
  {
    if g.queue != [] && g.held < g.cap {
      WakeKeepsCounts(Pop(g));
    }
  }
}
