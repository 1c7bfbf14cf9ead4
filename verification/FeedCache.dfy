/**
 * The feed cache as the balancer runs it (lb/loadbalancer.py:641-708, 848-862), proved
 * against the specification in `Generations`.
 */
module FeedCache {
  import opened Common
  import opened Generations

  class FeedCache {
    var body: Option<Gen>
    var live: seq<Entry>
    var files: map<nat, nat>
    var made: nat
    var overBudget: nat
    ghost var filed: set<nat>
    ghost var readers: multiset<Gen>

    ghost function View(): Cache
      reads this
    {
      Cache(body, live, files, made, filed, readers)
    }

    constructor ()
      ensures View() == EMPTY && overBudget == 0
    {
      body, live, files, made, overBudget := None, [], map[], 0, 0;
      filed, readers := {}, multiset{};
    }

    /** Reserve a body for streaming to one client, or nothing when it cannot take it. */
    method TakeBody(accepts: bool, budget: nat) returns (taken: Option<Gen>)
      modifies this
      ensures View() == Step(old(View()), budget, Take(accepts))
      ensures taken == if accepts && body.Some? then Some(Chosen(old(View()), budget)) else None
      ensures taken.Some? <==> accepts && body.Some?
      ensures taken.Some? && old(Inv(View(), budget)) ==> RightBody(old(View()), budget, taken.value)
      ensures body == old(body) && files == old(files)
      ensures readers == if taken.Some? then old(readers) + multiset{taken.value} else old(readers)
      ensures old(Inv(View(), budget)) ==> Inv(View(), budget)
      ensures overBudget == old(overBudget) + if taken.Some? && taken != body then 1 else 0
    {
      hide Inv, RightBody, Pinned, At, Busiest;
      TakeIsSound(View(), budget, accepts);
      if !accepts || body.None? {
        return None;
      }
      var b := body.value;
      var k := At(live, b.addr);
      if k == |live| && live != [] && Pinned(live) + b.size > budget {
        overBudget := overBudget + 1;
        assert live[Busiest(live)] in live;
        b := live[Busiest(live)].gen;
        k := At(live, b.addr);
      }
      assert b == Chosen(old(View()), budget);
      if k == |live| {
        live := live + [Entry(b, 0)];
      }
      live := live[k := live[k].(readers := live[k].readers + 1)];
      readers := readers + multiset{b};
      taken := Some(b);
      assert live == Joined(old(live), b);
    }

    method DropFile(addr: nat)
      modifies this`files
      ensures files == old(files) - {addr}
    {
      if addr !in files {
        assert files - {addr} == files;
        return;
      }
      files := files - {addr};
    }

    /** A client has finished with its body, or gone away. */
    method FinishBody(gen: Gen, ghost budget: nat)
      requires Inv(View(), budget) && gen in readers
      modifies this
      ensures View() == Step(old(View()), budget, Done(gen)) && Inv(View(), budget)
    {
      hide Pinned, AddressesDistinct, FilesMatch, WithinBudget, ReadersCounted, At;
      DoneKeepsInv(View(), budget, gen);
      ReaderIsLive(live, readers, gen);
      AtFinds(live, readers, gen);
      var k := At(live, gen.addr);
      readers := readers - multiset{gen};
      if k == |live| {
        assert false;
      }
      live := live[k := live[k].(readers := live[k].readers - 1)];
      if live[k].readers == 0 {
        live := Remove(live, k);
        assert live == Remove(old(live), k);
        if body != Some(gen) {
          DropFile(gen.addr);
        }
      }
    }

    /** A revalidation brought a new body; `fileWritten` says whether its file was. */
    method StoreBody(addr: nat, size: nat, fileWritten: bool, ghost budget: nat)
      requires Inv(View(), budget) && Free(View(), addr)
      modifies this
      ensures View() == Step(old(View()), budget, Store(addr, size, fileWritten)) && Inv(View(), budget)
      ensures body == Some(Gen(old(made), addr, size))
    {
      hide ReadersCounted, AddressesDistinct, FilesMatch, WithinBudget;
      StoreKeepsInv(View(), budget, addr, size, fileWritten);
      var was := body;
      var gen := Gen(made, addr, size);
      made := made + 1;
      body := Some(gen);
      if fileWritten {
        files := files[addr := gen.no];
        filed := filed + {gen.no};
      }
      if was.Some? && At(live, was.value.addr) == |live| {
        DropFile(was.value.addr);
      }
    }
  }

  lemma TakeIsSound(c: Cache, budget: nat, accepts: bool)
    ensures Inv(c, budget) ==> Inv(Step(c, budget, Take(accepts)), budget)
    ensures Inv(c, budget) && c.body.Some? ==> RightBody(c, budget, Chosen(c, budget))
  {
    hide Inv, RightBody, Step;
    if Inv(c, budget) {
      StepKeepsInv(c, budget, Take(accepts));
      if c.body.Some? { ChosenIsRight(c, budget); }
    }
  }
}
