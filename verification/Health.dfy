/**
 * Which backends the balancer may route to: active probes, passive ejection and
 * membership (lb/loadbalancer.py:276-277, 411-444, 907-962, 993-1025).
 */
module Health {
  import opened Common

  datatype State = Up | Degraded | Down | Draining

  datatype Member = Member(id: nat, state: State, consecOk: nat, consecFail: nat, passiveFails: nat) {
    predicate Routable() { state.Up? || state.Degraded? }
  }

  datatype Config = Config(rise: nat, fail: nat, passive: nat)

  /** A probe answered (slowly or not), timed out, or was refused; a bad status counts as
      refused. */
  datatype Probe = Good(slow: bool) | TimedOut | Refused

  /** `i` is a position in the pool.  A proxy failure is `midBody` when the response head
      was already forwarded; `recent` says the backend was seen (a good or a timed-out
      probe, or a registration) recently. */
  datatype Event =
    | Probed(i: nat, result: Probe)
    | ProxyFailed(i: nat, midBody: bool, recent: bool)
    | ProxyServed(i: nat)
    | Drain(id: nat)
    | Register(id: nat)
    | Prune(id: nat)

  // ---- one backend -----------------------------------------------------------

  function AfterProbe(m: Member, c: Config, result: Probe, othersRoutable: bool): Member {
    match result
    case Good(slow) =>
      var n := m.(consecOk := m.consecOk + 1, consecFail := 0);
      if m.state.Down? && n.consecOk >= c.rise then n.(state := if slow then Degraded else Up)
      else if m.state.Up? && slow then n.(state := Degraded)
      else if m.state.Degraded? && !slow then n.(state := Up)
      else n
    case TimedOut => m.(consecOk := 0, state := if m.state.Up? then Degraded else m.state)
    case Refused =>
      var n := m.(consecOk := 0, consecFail := m.consecFail + 1);
      if m.Routable() && n.consecFail >= c.fail then (if othersRoutable then n.(state := Down) else n)
      else if m.state.Draining? && n.consecFail >= c.fail then n.(state := Down)
      else n
  }

  function AfterFailure(m: Member, c: Config, midBody: bool, recent: bool, othersRoutable: bool): Member {
    if midBody || !m.Routable() || !othersRoutable then m
    else
      var n := m.(passiveFails := m.passiveFails + 1);
      if n.passiveFails < (if recent then c.passive else 1) then n
      else n.(state := Down, consecFail := c.fail, consecOk := 0)
  }

  // ---- the pool --------------------------------------------------------------

  predicate OthersRoutable(pool: seq<Member>, i: nat) {
    exists j :: 0 <= j < |pool| && j != i && pool[j].Routable()
  }

  function IndexOf(pool: seq<Member>, id: nat): (k: nat)
    ensures k <= |pool|
    ensures k < |pool| ==> pool[k].id == id
    ensures k == |pool| ==> forall m | m in pool :: m.id != id
  {
    if pool == [] then 0 else if pool[0].id == id then 0 else 1 + IndexOf(pool[1..], id)
  }

  function Step(pool: seq<Member>, c: Config, e: Event): seq<Member> {
    match e
    case Probed(i, result) =>
      if i < |pool| then pool[i := AfterProbe(pool[i], c, result, OthersRoutable(pool, i))] else pool
    case ProxyFailed(i, midBody, recent) =>
      if i < |pool| then pool[i := AfterFailure(pool[i], c, midBody, recent, OthersRoutable(pool, i))] else pool
    case ProxyServed(i) => if i < |pool| then pool[i := pool[i].(passiveFails := 0)] else pool
    case Drain(id) =>
      var k := IndexOf(pool, id);
      if k < |pool| && !pool[k].state.Draining? then pool[k := pool[k].(state := Draining)] else pool
    case Register(id) =>
      var k := IndexOf(pool, id);
      if k == |pool| then pool + [Member(id, Up, 0, 0, 0)]
      else if pool[k].state.Draining? then pool[k := pool[k].(state := Up, consecFail := 0)]
      else pool
    case Prune(id) =>
      var k := IndexOf(pool, id);
      if k < |pool| && pool[k].state.Down? then Remove(pool, k) else pool
  }

  function Run(pool: seq<Member>, c: Config, events: seq<Event>): seq<Member> {
    if events == [] then pool else Step(Run(pool, c, events[..|events| - 1]), c, events[|events| - 1])
  }

  /** The steps the balancer takes on its own evidence: probes and proxied requests. */
  predicate Observation(e: Event) {
    e.Probed? || e.ProxyFailed? || e.ProxyServed?
  }

  predicate Observations(events: seq<Event>) {
    forall k | 0 <= k < |events| :: Observation(events[k])
  }

  ghost predicate AnyRoutable(pool: seq<Member>) {
    exists j :: 0 <= j < |pool| && pool[j].Routable()
  }

  /** The balancer's active count. */
  function RoutableCount(pool: seq<Member>): nat {
    if pool == [] then 0
    else RoutableCount(pool[..|pool| - 1]) + if pool[|pool| - 1].Routable() then 1 else 0
  }

  /** It is how many members are routable. */
  lemma {:induction false} CountIsCardinality(pool: seq<Member>)
    ensures RoutableCount(pool) == |set i | 0 <= i < |pool| && pool[i].Routable()|
  {
    if pool != [] {
      var n := |pool| - 1;
      CountIsCardinality(pool[..n]);
      var was := set i | 0 <= i < n && pool[..n][i].Routable();
      var now := set i | 0 <= i < |pool| && pool[i].Routable();
      assert now == was + if pool[n].Routable() then {n} else {};
    }
  }

  // ---- fail open -------------------------------------------------------------

  lemma StepKeepsOneRoutable(pool: seq<Member>, c: Config, e: Event)
    requires AnyRoutable(pool) && (Observation(e) || e.Prune?)
    ensures AnyRoutable(Step(pool, c, e))
  {
    var after := Step(pool, c, e);
    var j :| 0 <= j < |pool| && pool[j].Routable();
    if e.Prune? {
      var k := IndexOf(pool, e.id);
      if k < |pool| && pool[k].state.Down? {
        assert after[if j < k then j else j - 1] == pool[j];
      }
    } else if e.i < |pool| {
      if OthersRoutable(pool, e.i) {
        var o :| 0 <= o < |pool| && o != e.i && pool[o].Routable();
        assert after[o] == pool[o];
      } else {
        assert j == e.i && after[j].Routable();
      }
    }
  }

  /** Fail open: whatever probes and proxied requests report, and however many dead members
      are pruned, a pool that could route still can. */
  lemma {:induction false} NeverEmptiesThePool(pool: seq<Member>, c: Config, events: seq<Event>)
    requires AnyRoutable(pool)
    requires forall k | 0 <= k < |events| :: Observation(events[k]) || events[k].Prune?
    ensures AnyRoutable(Run(pool, c, events))
  {
    if events != [] {
      NeverEmptiesThePool(pool, c, events[..|events| - 1]);
      StepKeepsOneRoutable(Run(pool, c, events[..|events| - 1]), c, events[|events| - 1]);
    }
  }

  /** The only step that empties a pool that could route is deregistering its last routable
      member. */
  lemma EmptiedExactly(pool: seq<Member>, c: Config, e: Event)
    requires AnyRoutable(pool)
    ensures !AnyRoutable(Step(pool, c, e)) <==>
              && e.Drain? && IndexOf(pool, e.id) < |pool| && pool[IndexOf(pool, e.id)].Routable()
              && !OthersRoutable(pool, IndexOf(pool, e.id))
  {
    var after := Step(pool, c, e);
    var j :| 0 <= j < |pool| && pool[j].Routable();
    if Observation(e) || e.Prune? {
      StepKeepsOneRoutable(pool, c, e);
    } else if e.Register? {
      assert after[j].Routable();
    } else if IndexOf(pool, e.id) < |pool| {
      var k := IndexOf(pool, e.id);
      if OthersRoutable(pool, k) {
        var o :| 0 <= o < |pool| && o != k && pool[o].Routable();
        assert after[o] == pool[o];
      }
    } else {
      assert after[j] == pool[j];
    }
  }

  // ---- one member through membership changes ---------------------------------

  /** The member with this id, wherever pruning and joining have moved it. */
  function MemberOf(pool: seq<Member>, id: nat): Option<Member> {
    var k := IndexOf(pool, id);
    if k < |pool| then Some(pool[k]) else None
  }

  /** At most one member has this id. */
  ghost predicate Once(pool: seq<Member>, id: nat) {
    forall i, j :: 0 <= i < j < |pool| && pool[i].id == id ==> pool[j].id != id
  }

  /** The position an event is about is that of this id. */
  predicate Concerns(pool: seq<Member>, e: Event, id: nat) {
    Observation(e) && e.i < |pool| && pool[e.i].id == id
  }

  /** What an event makes of the member `m` with this id, if there is one. */
  function NextOf(pool: seq<Member>, c: Config, e: Event, id: nat, m: Option<Member>): Option<Member> {
    match m
    case None => if e == Register(id) then Some(Member(id, Up, 0, 0, 0)) else None
    case Some(m) =>
      match e
      case Probed(i, result) =>
        if Concerns(pool, e, id) then Some(AfterProbe(m, c, result, OthersRoutable(pool, i))) else Some(m)
      case ProxyFailed(i, midBody, recent) =>
        if Concerns(pool, e, id) then Some(AfterFailure(m, c, midBody, recent, OthersRoutable(pool, i))) else Some(m)
      case ProxyServed(i) => if Concerns(pool, e, id) then Some(m.(passiveFails := 0)) else Some(m)
      case Drain(x) => if x == id then Some(m.(state := Draining)) else Some(m)
      case Register(x) =>
        if x == id && m.state.Draining? then Some(m.(state := Up, consecFail := 0)) else Some(m)
      case Prune(x) => if x == id && m.state.Down? then None else Some(m)
  }

  lemma {:induction false} SameIds(a: seq<Member>, b: seq<Member>, id: nat)
    requires |a| == |b| && forall i | 0 <= i < |a| :: a[i].id == b[i].id
    ensures IndexOf(a, id) == IndexOf(b, id)
  {
    if a != [] {
      SameIds(a[1..], b[1..], id);
    }
  }

  lemma IndexIsThere(pool: seq<Member>, id: nat, i: nat)
    requires Once(pool, id) && i < |pool| && pool[i].id == id
    ensures IndexOf(pool, id) == i
  {
    var k := IndexOf(pool, id);
    assert k < |pool| by { assert pool[i] in pool; }
    assert pool[k].id == id;
  }

  lemma UpdateOf(pool: seq<Member>, i: nat, m: Member, id: nat)
    requires Once(pool, id) && i < |pool| && m.id == pool[i].id
    ensures Once(pool[i := m], id)
    ensures MemberOf(pool[i := m], id) == if pool[i].id == id then Some(m) else MemberOf(pool, id)
  {
    SameIds(pool[i := m], pool, id);
    if pool[i].id == id {
      IndexIsThere(pool, id, i);
    }
  }

  lemma {:induction false} IndexOfAppend(pool: seq<Member>, m: Member, id: nat)
    ensures IndexOf(pool + [m], id) ==
            if IndexOf(pool, id) < |pool| then IndexOf(pool, id) else if m.id == id then |pool| else |pool| + 1
  {
    if pool == [] {
      assert [m][1..] == [];
    } else {
      IndexOfAppend(pool[1..], m, id);
      assert (pool + [m])[1..] == pool[1..] + [m];
    }
  }

  lemma JoinOf(pool: seq<Member>, m: Member, id: nat)
    requires Once(pool, id) && IndexOf(pool, m.id) == |pool|
    ensures Once(pool + [m], id)
    ensures MemberOf(pool + [m], id) == if m.id == id then Some(m) else MemberOf(pool, id)
  {
    IndexOfAppend(pool, m, id);
    assert forall x | x in pool :: x.id != m.id;
    forall i | 0 <= i < |pool| && pool[i].id == id ensures m.id != id {
      assert pool[i] in pool;
    }
  }

  lemma LeaveOf(pool: seq<Member>, k: nat, id: nat)
    requires Once(pool, id) && k < |pool|
    ensures Once(Remove(pool, k), id)
    ensures MemberOf(Remove(pool, k), id) == if pool[k].id == id then None else MemberOf(pool, id)
  {
    var less := Remove(pool, k);
    assert forall j | 0 <= j < |less| :: less[j] == pool[if j < k then j else j + 1];
    var i := IndexOf(pool, id);
    if i == |pool| || i == k {
      if i == k { assert forall j | 0 <= j < |less| :: less[j].id != id; }
      else { assert forall m | m in pool :: m.id != id; }
      AbsentHasNoIndex(less, id);
      if i < |pool| && pool[k].id != id { assert false; }
      if i == |pool| { assert pool[k] in pool; }
    } else {
      var j := if i < k then i else i - 1;
      assert less[j] == pool[i];
      IndexIsThere(less, id, j);
      if pool[k].id == id { IndexIsThere(pool, id, k); assert false; }
    }
  }

  lemma AbsentHasNoIndex(pool: seq<Member>, id: nat)
    requires forall j | 0 <= j < |pool| :: pool[j].id != id
    ensures IndexOf(pool, id) == |pool|
  {
  }

  /** Whatever an event does to the pool, one member is affected as said. */
  lemma StepOf(pool: seq<Member>, c: Config, e: Event, id: nat)
    requires Once(pool, id)
    ensures Once(Step(pool, c, e), id)
    ensures MemberOf(Step(pool, c, e), id) == NextOf(pool, c, e, id, MemberOf(pool, id))
  {
    hide AfterProbe, AfterFailure, OthersRoutable, Once;
    if Observation(e) {
      if e.i < |pool| {
        KeepsId(pool[e.i], c, e, OthersRoutable(pool, e.i));
        UpdateOf(pool, e.i, Step(pool, c, e)[e.i], id);
        if pool[e.i].id == id { IndexIsThere(pool, id, e.i); }
      }
    } else {
      var k := IndexOf(pool, e.id);
      if k == |pool| {
        JoinOf(pool, Member(e.id, Up, 0, 0, 0), id);
      } else if e.Prune? {
        LeaveOf(pool, k, id);
      } else {
        UpdateOf(pool, k, Step(pool, c, e)[k], id);
      }
    }
  }

  lemma KeepsId(m: Member, c: Config, e: Event, others: bool)
    ensures e.Probed? ==> AfterProbe(m, c, e.result, others).id == m.id
    ensures e.ProxyFailed? ==> AfterFailure(m, c, e.midBody, e.recent, others).id == m.id
  {
  }

  lemma {:induction false} StaysOnce(pool: seq<Member>, c: Config, events: seq<Event>, id: nat)
    requires Once(pool, id)
    ensures Once(Run(pool, c, events), id)
  {
    hide Step, Once;
    if events != [] {
      StaysOnce(pool, c, events[..|events| - 1], id);
      StepOf(Run(pool, c, events[..|events| - 1]), c, events[|events| - 1], id);
    }
  }

  // ---- what the counters mean ------------------------------------------------

  /** Good probes of a member in a row: since it joined, answered a probe badly or was
      taken for dead. */
  function GoodStreak(pool: seq<Member>, c: Config, events: seq<Event>, id: nat): nat {
    if events == [] then 0
    else
      var front, e := events[..|events| - 1], events[|events| - 1];
      var before := Run(pool, c, front);
      var was, now := MemberOf(before, id), MemberOf(Step(before, c, e), id);
      if was.None? then 0
      else if e.Probed? && Concerns(before, e, id) then
        if e.result.Good? then GoodStreak(pool, c, front, id) + 1 else 0
      else if !was.value.state.Down? && now.Some? && now.value.state.Down? then 0
      else GoodStreak(pool, c, front, id)
  }

  /** Refused probes of a member since it joined, answered well or came back from draining;
      timeouts do not count, and an ejection by proxy failures stands for `fail` of them. */
  function RefusedStreak(pool: seq<Member>, c: Config, events: seq<Event>, id: nat): nat {
    if events == [] then 0
    else
      var front, e := events[..|events| - 1], events[|events| - 1];
      var before := Run(pool, c, front);
      var was, now := MemberOf(before, id), MemberOf(Step(before, c, e), id);
      if was.None? then 0
      else if e.Probed? && Concerns(before, e, id) && e.result.Good? then 0
      else if e == Register(id) && was.value.state.Draining? then 0
      else if e.ProxyFailed? && now.Some? && was.value.Routable() && !now.value.Routable() then c.fail
      else RefusedStreak(pool, c, front, id)
           + if e.Probed? && Concerns(before, e, id) && e.result.Refused? then 1 else 0
  }

  /** Proxy failures that were held against a member since it joined or last served. */
  function FailedStreak(pool: seq<Member>, c: Config, events: seq<Event>, id: nat): nat {
    if events == [] then 0
    else
      var front, e := events[..|events| - 1], events[|events| - 1];
      var before := Run(pool, c, front);
      var was := MemberOf(before, id);
      if was.None? || (e.ProxyServed? && Concerns(before, e, id)) then 0
      else FailedStreak(pool, c, front, id)
           + if e.ProxyFailed? && Concerns(before, e, id) && !e.midBody
                && was.value.Routable() && OthersRoutable(before, e.i) then 1 else 0
  }

  /** A pool at boot: every backend as it is constructed. */
  ghost predicate AtBoot(pool: seq<Member>) {
    forall i | 0 <= i < |pool| :: pool[i] == Member(pool[i].id, Up, 0, 0, 0)
  }

  lemma {:induction false} OkIsStreak(pool: seq<Member>, c: Config, events: seq<Event>, id: nat)
    requires AtBoot(pool) && Once(pool, id)
    ensures var m := MemberOf(Run(pool, c, events), id); m.Some? ==> m.value.consecOk == GoodStreak(pool, c, events, id)
  {
    hide Step, OthersRoutable, Once, IndexOf;
    if events != [] {
      var front := events[..|events| - 1];
      OkIsStreak(pool, c, front, id);
      StaysOnce(pool, c, front, id);
      StepOf(Run(pool, c, front), c, events[|events| - 1], id);
    }
  }

  lemma {:induction false} RefusedIsStreak(pool: seq<Member>, c: Config, events: seq<Event>, id: nat)
    requires AtBoot(pool) && Once(pool, id)
    ensures var m := MemberOf(Run(pool, c, events), id);
            m.Some? ==> m.value.consecFail == RefusedStreak(pool, c, events, id)
  {
    hide Step, OthersRoutable, Once, IndexOf;
    if events != [] {
      var front := events[..|events| - 1];
      RefusedIsStreak(pool, c, front, id);
      StaysOnce(pool, c, front, id);
      StepOf(Run(pool, c, front), c, events[|events| - 1], id);
    }
  }

  lemma {:induction false} PassiveIsStreak(pool: seq<Member>, c: Config, events: seq<Event>, id: nat)
    requires AtBoot(pool) && Once(pool, id)
    ensures var m := MemberOf(Run(pool, c, events), id);
            m.Some? ==> m.value.passiveFails == FailedStreak(pool, c, events, id)
  {
    hide Step, OthersRoutable, Once, IndexOf;
    if events != [] {
      var front := events[..|events| - 1];
      PassiveIsStreak(pool, c, front, id);
      StaysOnce(pool, c, front, id);
      StepOf(Run(pool, c, front), c, events[|events| - 1], id);
    }
  }

  /** In every run, with members leaving, joining and coming back: the three counters are
      exactly those streaks. */
  lemma CountersAreStreaks(pool: seq<Member>, c: Config, events: seq<Event>, id: nat)
    requires AtBoot(pool) && Once(pool, id)
    ensures var m := MemberOf(Run(pool, c, events), id);
            m.Some? ==>
              && m.value.consecOk == GoodStreak(pool, c, events, id)
              && m.value.consecFail == RefusedStreak(pool, c, events, id)
              && m.value.passiveFails == FailedStreak(pool, c, events, id)
  {
    hide Run, GoodStreak, RefusedStreak, FailedStreak;
    OkIsStreak(pool, c, events, id);
    RefusedIsStreak(pool, c, events, id);
    PassiveIsStreak(pool, c, events, id);
  }

  /** The event takes the member with this id out of rotation. */
  predicate Ejects(pool: seq<Member>, c: Config, e: Event, id: nat) {
    var was, now := MemberOf(pool, id), MemberOf(Step(pool, c, e), id);
    was.Some? && was.value.Routable() && now.Some? && !now.value.Routable()
  }

  predicate Readmits(pool: seq<Member>, c: Config, e: Event, id: nat) {
    var was, now := MemberOf(pool, id), MemberOf(Step(pool, c, e), id);
    was.Some? && !was.value.Routable() && now.Some? && now.value.Routable()
  }

  /** In every run and at every event: a member out of rotation comes back exactly when it
      is dead and a good probe completes `rise` good ones in a row since it was taken for
      dead, or when it is draining and registers again. */
  lemma ReadmittedExactly(pool: seq<Member>, c: Config, events: seq<Event>, e: Event, id: nat)
    requires AtBoot(pool) && Once(pool, id)
    ensures var before := Run(pool, c, events);
            var was := MemberOf(before, id);
            Readmits(before, c, e, id) <==>
              && was.Some?
              && (|| (&& was.value.state.Down?
                      && e.Probed? && Concerns(before, e, id) && e.result.Good?
                      && GoodStreak(pool, c, events, id) + 1 >= c.rise)
                  || (was.value.state.Draining? && e == Register(id)))
  {
    hide Run, Step, GoodStreak, OthersRoutable, Once;
    OkIsStreak(pool, c, events, id);
    StaysOnce(pool, c, events, id);
    StepOf(Run(pool, c, events), c, e, id);
  }

  /** In every run and at every event: a member leaves the rotation without leaving the pool
      exactly when it is refused a probe for the `fail`th time running and another backend
      can take its traffic, or fails a proxied request before any reply for the last time
      it may (the first, if it was not seen recently) and another can, or deregisters. */
  lemma EjectedExactly(pool: seq<Member>, c: Config, events: seq<Event>, e: Event, id: nat)
    requires AtBoot(pool) && Once(pool, id)
    ensures var before := Run(pool, c, events);
            var was := MemberOf(before, id);
            Ejects(before, c, e, id) <==>
              && was.Some? && was.value.Routable()
              && (|| (&& e.Probed? && Concerns(before, e, id) && e.result.Refused?
                      && RefusedStreak(pool, c, events, id) + 1 >= c.fail
                      && OthersRoutable(before, e.i))
                  || (&& e.ProxyFailed? && Concerns(before, e, id) && !e.midBody
                      && FailedStreak(pool, c, events, id) + 1 >= (if e.recent then c.passive else 1)
                      && OthersRoutable(before, e.i))
                  || e == Drain(id))
  {
    hide Run, Step, RefusedStreak, FailedStreak, GoodStreak, OthersRoutable, Once;
    CountersAreStreaks(pool, c, events, id);
    StaysOnce(pool, c, events, id);
    StepOf(Run(pool, c, events), c, e, id);
  }

  /** In every run and at every event: a member that is not dead is found dead exactly when it
      is refused a probe for the `fail`th time running, and is draining or another backend can
      take its traffic, or when proxy failures eject it. */
  lemma DiesExactly(pool: seq<Member>, c: Config, events: seq<Event>, e: Event, id: nat)
    requires AtBoot(pool) && Once(pool, id)
    ensures var before := Run(pool, c, events);
            var was, now := MemberOf(before, id), MemberOf(Step(before, c, e), id);
            was.Some? && !was.value.state.Down? && now.Some? && now.value.state.Down? <==>
              && was.Some?
              && (|| (&& e.Probed? && Concerns(before, e, id) && e.result.Refused?
                      && RefusedStreak(pool, c, events, id) + 1 >= c.fail
                      && (was.value.state.Draining? || (was.value.Routable() && OthersRoutable(before, e.i))))
                  || (&& e.ProxyFailed? && Concerns(before, e, id) && !e.midBody && was.value.Routable()
                      && FailedStreak(pool, c, events, id) + 1 >= (if e.recent then c.passive else 1)
                      && OthersRoutable(before, e.i)))
  {
    hide Run, Step, RefusedStreak, FailedStreak, GoodStreak, OthersRoutable, Once;
    CountersAreStreaks(pool, c, events, id);
    StaysOnce(pool, c, events, id);
    StepOf(Run(pool, c, events), c, e, id);
  }

  /** The last probe of a member that was not refused came back slow, or not in time; one
      that has just joined or returned from draining counts as quick. */
  function LastWasSlow(pool: seq<Member>, c: Config, events: seq<Event>, id: nat): bool {
    if events == [] then false
    else
      var front, e := events[..|events| - 1], events[|events| - 1];
      var was := MemberOf(Run(pool, c, front), id);
      if was.None? then false
      else if e == Register(id) && was.value.state.Draining? then false
      else if e.Probed? && Concerns(Run(pool, c, front), e, id) && !e.result.Refused?
      then e.result.TimedOut? || e.result.slow
      else LastWasSlow(pool, c, front, id)
  }

  /** In every run a routable member is degraded exactly when that probe was slow. */
  lemma {:induction false} DegradedExactly(pool: seq<Member>, c: Config, events: seq<Event>, id: nat)
    requires AtBoot(pool) && Once(pool, id)
    ensures var m := MemberOf(Run(pool, c, events), id);
            m.Some? && m.value.Routable() ==> (m.value.state.Degraded? <==> LastWasSlow(pool, c, events, id))
  {
    hide Step, OthersRoutable, Once, IndexOf;
    if events != [] {
      var front := events[..|events| - 1];
      DegradedExactly(pool, c, front, id);
      StaysOnce(pool, c, front, id);
      StepOf(Run(pool, c, front), c, events[|events| - 1], id);
    }
  }

  /** Slowness is never evidence of death: a timed-out probe or a transfer that breaks off
      mid-body changes nobody's place in the rotation. */
  lemma SlownessNeverEjects(pool: seq<Member>, c: Config, e: Event, j: nat)
    requires (e.Probed? && e.result.TimedOut?) || (e.ProxyFailed? && e.midBody)
    requires j < |pool|
    ensures |Step(pool, c, e)| == |pool| && (Step(pool, c, e)[j].Routable() <==> pool[j].Routable())
  {
  }

  // ---- leaving and joining ---------------------------------------------------

  /** Deregistering takes the member with that id out of rotation and changes no other. */
  lemma DrainTakesOut(pool: seq<Member>, c: Config, id: nat)
    requires IndexOf(pool, id) < |pool|
    ensures var k, after := IndexOf(pool, id), Step(pool, c, Drain(id));
            && |after| == |pool| && after[k].state.Draining? && !after[k].Routable()
            && forall j | 0 <= j < |pool| && j != k :: after[j] == pool[j]
  {
  }

  /** Nothing the balancer observes brings a draining backend back while it still takes
      connections: only a refused probe can move it on, and then to dead. */
  lemma {:induction false} DrainedStaysOut(pool: seq<Member>, c: Config, events: seq<Event>, i: nat)
    requires i < |pool| && pool[i].state.Draining? && Observations(events)
    requires forall k | 0 <= k < |events| :: events[k].Probed? && events[k].i == i ==> !events[k].result.Refused?
    ensures |Run(pool, c, events)| == |pool| && Run(pool, c, events)[i].state.Draining?
  {
    if events != [] {
      DrainedStaysOut(pool, c, events[..|events| - 1], i);
    }
  }

  /** Registering makes the id a member, routable unless it was a member found dead; no
      other member changes. */
  lemma RegisterAdmits(pool: seq<Member>, c: Config, id: nat)
    ensures var k, after := IndexOf(pool, id), Step(pool, c, Register(id));
            && k < |after| && IndexOf(after, id) == k
            && (after[k].Routable() <==> k == |pool| || !pool[k].state.Down?)
            && forall j | 0 <= j < |pool| && j != k :: after[j] == pool[j]
  {
    var k := IndexOf(pool, id);
    if k == |pool| {
      IndexOfNew(pool, Member(id, Up, 0, 0, 0));
    } else if pool[k].state.Draining? {
      SameIndex(pool, k, pool[k].(state := Up, consecFail := 0));
    }
  }

  lemma {:induction false} IndexOfNew(pool: seq<Member>, m: Member)
    requires IndexOf(pool, m.id) == |pool|
    ensures IndexOf(pool + [m], m.id) == |pool|
  {
    if pool != [] {
      IndexOfNew(pool[1..], m);
      assert (pool + [m])[1..] == pool[1..] + [m];
    }
  }

  // ---- two ways round the thresholds -----------------------------------------

  /** Deregistering a dead backend and registering it again puts it back in rotation
      without a single probe. */
  lemma ReregistrationSkipsProbes(pool: seq<Member>, c: Config, k: nat)
    requires k < |pool| && IndexOf(pool, pool[k].id) == k && pool[k].state.Down?
    ensures var drained := Step(pool, c, Drain(pool[k].id));
            Step(drained, c, Register(pool[k].id))[k].state == Up
  {
    SameIndex(pool, k, pool[k].(state := Draining));
  }

  lemma {:induction false} SameIndex(pool: seq<Member>, k: nat, m: Member)
    requires k < |pool| && IndexOf(pool, m.id) == k && pool[k].id == m.id
    ensures IndexOf(pool[k := m], m.id) == k
  {
    if k > 0 {
      SameIndex(pool[1..], k - 1, m);
      assert pool[k := m][1..] == pool[1..][k - 1 := m];
    }
  }

  /** Readmission does not clear the proxy failures: a backend that was ejected by them is
      ejected by its very next failure, unless it serves a request in between. */
  lemma ReadmittedOnProbation(m: Member, c: Config, slow: bool, midBody: bool)
    requires m.state.Down? && m.passiveFails >= c.passive && m.consecOk + 1 >= c.rise
    ensures var back := AfterProbe(m, c, Good(slow), true);
            && back.Routable()
            && (AfterFailure(back, c, midBody, true, true).state == Down <==> !midBody)
  {
  }
}
