/**
 * The balancer's backends as it keeps them: objects whose state and counters probes and
 * proxied requests update in place (lb/loadbalancer.py:246-277, 411-444, 911-962,
 * 993-1025), proved against the specification in `Health`.
 */
module BackendPool {
  import opened Common
  import opened Health

  class Backend {
    const id: nat
    var state: State
    var consecOk: nat
    var consecFail: nat
    var passiveFails: nat

    constructor (id: nat)
      ensures this.id == id && AsMember() == Member(id, Up, 0, 0, 0)
    {
      this.id := id;
      state, consecOk, consecFail, passiveFails := Up, 0, 0, 0;
    }

    function AsMember(): Member
      reads this
    {
      Member(id, state, consecOk, consecFail, passiveFails)
    }

    predicate Routable()
      reads this
    {
      state == Up || state == Degraded
    }
  }

  ghost function Members(backends: seq<Backend>): (r: seq<Member>)
    reads backends
    ensures |r| == |backends|
    ensures forall i | 0 <= i < |backends| :: r[i] == backends[i].AsMember()
  {
    seq(|backends|, i requires 0 <= i < |backends| reads backends => backends[i].AsMember())
  }

  class Pool {
    const cfg: Config
    var backends: seq<Backend>

    ghost predicate Valid()
      reads this
    {
      forall i, j :: 0 <= i < j < |backends| ==> backends[i] != backends[j]
    }

    ghost function View(): seq<Member>
      reads this, backends
    {
      Members(backends)
    }

    constructor (cfg: Config)
      ensures Valid() && this.cfg == cfg && backends == []
    {
      this.cfg, backends := cfg, [];
    }

    /** Is any backend other than the one at `i` routable? */
    method AnyOther(i: nat) returns (others: bool)
      requires Valid() && i < |backends|
      ensures others == OthersRoutable(View(), i)
    {
      others := false;
      for j := 0 to |backends|
        invariant others == exists k :: 0 <= k < j && k != i && View()[k].Routable()
      {
        if backends[j] != backends[i] && backends[j].Routable() {
          assert View()[j].Routable();
          others := true;
        }
      }
    }

    method CountRoutable() returns (n: nat)
      ensures n == RoutableCount(View())
    {
      n := 0;
      for k := 0 to |backends|
        invariant n == RoutableCount(View()[..k])
      {
        assert View()[..k + 1][..k] == View()[..k];
        if backends[k].Routable() {
          assert View()[k].Routable();
          n := n + 1;
        }
      }
      assert View()[..|backends|] == View();
    }

    /** What routing looks at. */
    method Snapshot() returns (members: seq<Member>)
      ensures members == View()
    {
      members := [];
      for k := 0 to |backends|
        invariant members == View()[..k]
      {
        members := members + [backends[k].AsMember()];
      }
    }

    /** One round of the health loop for the backend at `i`. */
    method OnProbe(i: nat, result: Probe)
      requires Valid() && i < |backends|
      modifies backends[i]
      ensures Valid() && View() == Step(old(View()), cfg, Probed(i, result))
    {
      hide Members, AfterFailure, IndexOf;
      var b := backends[i];
      match result {
        case Good(slow) =>
          b.consecOk := b.consecOk + 1;
          b.consecFail := 0;
          if b.state == Down && b.consecOk >= cfg.rise {
            b.state := if slow then Degraded else Up;
          } else if b.state == Up && slow {
            b.state := Degraded;
          } else if b.state == Degraded && !slow {
            b.state := Up;
          }
        case TimedOut =>
          b.consecOk := 0;
          if b.state == Up {
            b.state := Degraded;
          }
        case Refused =>
          b.consecFail := b.consecFail + 1;
          b.consecOk := 0;
          var others := AnyOther(i);
          OthersUnaffected(old(View()), View(), i);
          if b.Routable() && b.consecFail >= cfg.fail {
            if others {
              b.state := Down;
            }
          } else if b.state == Draining && b.consecFail >= cfg.fail {
            b.state := Down;
          }
      }
      assert View() == old(View())[i := b.AsMember()];
    }

    /** A proxied request failed on the backend at `i`. */
    method EjectNow(i: nat, midBody: bool, recent: bool)
      requires Valid() && i < |backends|
      modifies backends[i]
      ensures Valid() && View() == Step(old(View()), cfg, ProxyFailed(i, midBody, recent))
    {
      var b := backends[i];
      if midBody || !b.Routable() {
        assert View() == old(View())[i := b.AsMember()];
        return;
      }
      var others := AnyOther(i);
      if !others {
        assert View() == old(View())[i := b.AsMember()];
        return;
      }
      b.passiveFails := b.passiveFails + 1;
      var need := if recent then cfg.passive else 1;
      if b.passiveFails < need {
        return;
      }
      b.state := Down;
      b.consecFail := cfg.fail;
      b.consecOk := 0;
    }

    /** A proxied request was answered by the backend at `i`. */
    method Served(i: nat)
      requires Valid() && i < |backends|
      modifies backends[i]
      ensures Valid() && View() == Step(old(View()), cfg, ProxyServed(i))
    {
      backends[i].passiveFails := 0;
    }

    method FindById(id: nat) returns (k: nat)
      requires Valid()
      ensures k == IndexOf(View(), id)
    {
      k := 0;
      while k < |backends| && backends[k].id != id
        invariant k <= |backends|
        invariant IndexOf(View(), id) == k + IndexOf(View()[k..], id)
      {
        assert View()[k..][1..] == View()[k + 1..];
        k := k + 1;
      }
    }

    /** A backend announces itself; true when it was not known. */
    method AddBackend(id: nat) returns (added: bool)
      requires Valid()
      modifies this, backends
      ensures Valid() && View() == Step(old(View()), cfg, Register(id))
      ensures added <==> IndexOf(old(View()), id) == |old(View())|
    {
      var k := FindById(id);
      if k < |backends| {
        if backends[k].state == Draining {
          backends[k].state := Up;
          backends[k].consecFail := 0;
        }
        return false;
      }
      var b := new Backend(id);
      backends := backends + [b];
      added := true;
    }

    method DrainBackend(id: nat) returns (draining: bool)
      requires Valid()
      modifies backends
      ensures Valid() && View() == Step(old(View()), cfg, Drain(id))
    {
      var k := FindById(id);
      if k < |backends| && backends[k].state != Draining {
        backends[k].state := Draining;
        return true;
      }
      draining := false;
    }

    /** Drop a member that has been down for long enough. */
    method PruneDown(id: nat)
      requires Valid()
      modifies this`backends
      ensures Valid() && View() == Step(old(View()), cfg, Prune(id))
    {
      hide AfterProbe, AfterFailure;
      var k := FindById(id);
      if k < |backends| && backends[k].state == Down {
        MembersRemove(backends, k);
        StillDistinct(backends, k);
        backends := Remove(backends, k);
      }
    }
  }

  lemma MembersRemove(backends: seq<Backend>, k: nat)
    requires k < |backends|
    ensures Members(Remove(backends, k)) == Remove(Members(backends), k)
  {
  }

  lemma StillDistinct(backends: seq<Backend>, k: nat)
    requires k < |backends| && forall i, j :: 0 <= i < j < |backends| ==> backends[i] != backends[j]
    ensures var less := Remove(backends, k); forall i, j :: 0 <= i < j < |less| ==> less[i] != less[j]
  {
  }

  lemma OthersUnaffected(before: seq<Member>, after: seq<Member>, i: nat)
    requires |before| == |after| && forall j | 0 <= j < |before| && j != i :: before[j] == after[j]
    ensures OthersRoutable(before, i) == OthersRoutable(after, i)
  {
    if j :| 0 <= j < |before| && j != i && before[j].Routable() { assert after[j].Routable(); }
    if j :| 0 <= j < |after| && j != i && after[j].Routable() { assert before[j].Routable(); }
  }
}
