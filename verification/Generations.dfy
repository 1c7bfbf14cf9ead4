/**
 * The balancer's feed cache (lb/loadbalancer.py:602-708, 848-862; readers at 1328-1363):
 * one current body, the generations still being streamed with their reader counts, and a
 * file per generation keyed by id(body).
 *
 * An id is an address, and an address is free again once its object is gone, so a store
 * may be handed any address no living body occupies.  `no` tells bodies apart for ever.
 */
module Generations {
  import opened Common

  datatype Gen = Gen(no: nat, addr: nat, size: nat)

  datatype Entry = Entry(gen: Gen, readers: nat)

  /** `files` maps an address to the generation whose payload the file holds; `filed` are
      the generations that were given a file; `readers` are the takes not yet done. */
  datatype Cache = Cache(
    body: Option<Gen>, live: seq<Entry>, files: map<nat, nat>,
    made: nat, filed: set<nat>, readers: multiset<Gen>)

  datatype Event =
    | Take(accepts: bool)
    | Done(gen: Gen)
    | Store(addr: nat, size: nat, fileWritten: bool)

  const EMPTY := Cache(None, [], map[], 0, {}, multiset{})

  // ---- operations ------------------------------------------------------------

  /** live.get(addr): the position of the entry, or |live|. */
  function At(live: seq<Entry>, addr: nat): (k: nat)
    ensures k <= |live|
    ensures k < |live| ==> live[k].gen.addr == addr
    ensures k == |live| ==> forall e | e in live :: e.gen.addr != addr
  {
    if live == [] then 0
    else if live[0].gen.addr == addr then 0
    else 1 + At(live[1..], addr)
  }

  function Pinned(live: seq<Entry>): nat {
    if live == [] then 0 else live[0].gen.size + Pinned(live[1..])
  }

  /** The first entry with the most readers. */
  function Busiest(live: seq<Entry>): (k: nat)
    requires live != []
    ensures k < |live|
    ensures forall e | e in live :: e.readers <= live[k].readers
    ensures forall j | 0 <= j < k :: live[j].readers < live[k].readers
  {
    if |live| == 1 then 0
    else
      var k := Busiest(live[1..]);
      if live[k + 1].readers > live[0].readers then k + 1 else 0
  }

  /** Which body a reader is handed: the current one, unless pinning one more generation
      would exceed the budget; then the busiest of those in memory already. */
  function Chosen(c: Cache, budget: nat): Gen
    requires c.body.Some?
  {
    if At(c.live, c.body.value.addr) == |c.live| && c.live != [] && Pinned(c.live) + c.body.value.size > budget
    then c.live[Busiest(c.live)].gen
    else c.body.value
  }

  function Joined(live: seq<Entry>, gen: Gen): seq<Entry> {
    var k := At(live, gen.addr);
    if k == |live| then live + [Entry(gen, 1)] else live[k := live[k].(readers := live[k].readers + 1)]
  }

  function Taken(c: Cache, gen: Gen): Cache {
    c.(live := Joined(c.live, gen), readers := c.readers + multiset{gen})
  }

  function Finished(c: Cache, gen: Gen): Cache {
    var k := At(c.live, gen.addr);
    var d := c.(readers := c.readers - multiset{gen});
    if k == |c.live| then d
    else if c.live[k].readers > 1 then d.(live := c.live[k := c.live[k].(readers := c.live[k].readers - 1)])
    else d.(live := Remove(c.live, k), files := if c.body == Some(gen) then c.files else c.files - {gen.addr})
  }

  predicate Free(c: Cache, addr: nat) {
    && (c.body.Some? ==> c.body.value.addr != addr)
    && (forall e | e in c.live :: e.gen.addr != addr)
  }

  function Replaced(c: Cache, gen: Gen, fileWritten: bool): Cache {
    var files := if fileWritten then c.files[gen.addr := gen.no] else c.files;
    c.(body := Some(gen), made := c.made + 1,
       filed := if fileWritten then c.filed + {gen.no} else c.filed,
       files := if c.body.Some? && At(c.live, c.body.value.addr) == |c.live|
                then files - {c.body.value.addr} else files)
  }

  function Step(c: Cache, budget: nat, e: Event): Cache {
    match e
    case Take(accepts) => if accepts && c.body.Some? then Taken(c, Chosen(c, budget)) else c
    case Done(gen) => if gen in c.readers then Finished(c, gen) else c
    case Store(addr, size, fileWritten) =>
      if Free(c, addr) then Replaced(c, Gen(c.made, addr, size), fileWritten) else c
  }

  function Run(budget: nat, events: seq<Event>): Cache {
    if events == [] then EMPTY else Step(Run(budget, events[..|events| - 1]), budget, events[|events| - 1])
  }

  // ---- invariant -------------------------------------------------------------

  ghost predicate IsLive(live: seq<Entry>, gen: Gen) {
    exists k :: 0 <= k < |live| && live[k].gen == gen
  }

  /** Each entry counts exactly the takes of its body that are not yet done. */
  ghost predicate ReadersCounted(live: seq<Entry>, readers: multiset<Gen>) {
    && (forall i, j :: 0 <= i < j < |live| ==> live[i].gen.addr != live[j].gen.addr)
    && (forall i | 0 <= i < |live| :: live[i].readers >= 1 && readers[live[i].gen] == live[i].readers)
    && (forall g | g in readers :: IsLive(live, g))
  }

  /** A body that is current or still streamed: the only ones that occupy an address. */
  ghost predicate Held(c: Cache, gen: Gen) {
    c.body == Some(gen) || IsLive(c.live, gen)
  }

  ghost predicate AddressesDistinct(c: Cache) {
    && (forall g, h | Held(c, g) && Held(c, h) && g.addr == h.addr :: g == h)
    && (forall g | Held(c, g) :: g.no < c.made)
  }

  /** Every file key belongs to a held body and the file holds that body's payload; a held
      body that was given a file still has it. */
  ghost predicate FilesMatch(c: Cache) {
    && (forall a | a in c.files :: exists g :: Held(c, g) && g.addr == a && c.files[a] == g.no)
    && (forall g | Held(c, g) && g.no in c.filed :: g.addr in c.files && c.files[g.addr] == g.no)
    && (forall n | n in c.filed :: n < c.made)
  }

  ghost predicate WithinBudget(live: seq<Entry>, budget: nat) {
    |live| <= 1 || Pinned(live) <= budget
  }

  ghost predicate Inv(c: Cache, budget: nat) {
    ReadersCounted(c.live, c.readers) && AddressesDistinct(c) && FilesMatch(c) && WithinBudget(c.live, budget)
  }

  // ---- lemmas on the live list -----------------------------------------------

  lemma {:induction false} PinnedSnoc(live: seq<Entry>, e: Entry)
    ensures Pinned(live + [e]) == Pinned(live) + e.gen.size
  {
    if live == [] {
      assert [e][1..] == [];
    } else {
      PinnedSnoc(live[1..], e);
      assert (live + [e])[1..] == live[1..] + [e];
    }
  }

  lemma {:induction false} PinnedSameGen(live: seq<Entry>, k: nat, e: Entry)
    requires k < |live| && live[k].gen == e.gen
    ensures Pinned(live[k := e]) == Pinned(live)
  {
    if k > 0 {
      PinnedSameGen(live[1..], k - 1, e);
      assert live[k := e][1..] == live[1..][k - 1 := e];
    } else {
      assert live[0 := e][1..] == live[1..];
    }
  }

  lemma {:induction false} PinnedRemove(live: seq<Entry>, k: nat)
    requires k < |live|
    ensures Pinned(Remove(live, k)) == Pinned(live) - live[k].gen.size
  {
    if k > 0 {
      PinnedRemove(live[1..], k - 1);
      assert Remove(live, k)[1..] == Remove(live[1..], k - 1);
    } else {
      assert Remove(live, 0) == live[1..];
    }
  }

  lemma AtFinds(live: seq<Entry>, readers: multiset<Gen>, gen: Gen)
    requires ReadersCounted(live, readers) && IsLive(live, gen)
    ensures At(live, gen.addr) < |live| && live[At(live, gen.addr)].gen == gen
    ensures live[At(live, gen.addr)].readers >= 1
  {
    var k :| 0 <= k < |live| && live[k].gen == gen;
    assert live[k] in live;
  }

  lemma ReaderIsLive(live: seq<Entry>, readers: multiset<Gen>, gen: Gen)
    requires ReadersCounted(live, readers) && gen in readers
    ensures IsLive(live, gen)
  {
  }

  // ---- take ------------------------------------------------------------------

  /** A reader may join a body that is live, or one whose address no live body has. */
  ghost predicate Joinable(live: seq<Entry>, gen: Gen) {
    IsLive(live, gen) || At(live, gen.addr) == |live|
  }

  lemma JoinedKeepsHeld(live: seq<Entry>, gen: Gen, g: Gen)
    requires Joinable(live, gen)
    requires forall i, j :: 0 <= i < j < |live| ==> live[i].gen.addr != live[j].gen.addr
    ensures IsLive(Joined(live, gen), g) <==> IsLive(live, g) || g == gen
  {
    var k, more := At(live, gen.addr), Joined(live, gen);
    if k < |live| {
      var i :| 0 <= i < |live| && live[i].gen == gen;
      assert more[k].gen == gen;
      if j :| 0 <= j < |live| && live[j].gen == g { assert more[j].gen == g; }
      if j :| 0 <= j < |more| && more[j].gen == g { assert live[j].gen == g; }
    } else {
      assert more[|live|].gen == gen;
      if j :| 0 <= j < |live| && live[j].gen == g { assert more[j].gen == g; }
    }
  }

  lemma JoinedCounted(live: seq<Entry>, readers: multiset<Gen>, gen: Gen)
    requires ReadersCounted(live, readers) && Joinable(live, gen)
    ensures ReadersCounted(Joined(live, gen), readers + multiset{gen})
  {
    var k, more, now := At(live, gen.addr), Joined(live, gen), readers + multiset{gen};
    if k < |live| {
      AtFinds(live, readers, gen);
    } else {
      forall i | 0 <= i < |live| ensures live[i].gen.addr != gen.addr { assert live[i] in live; }
      if gen in readers { AtFinds(live, readers, gen); }
    }
    forall g | g in now ensures IsLive(more, g) { JoinedKeepsHeld(live, gen, g); }
  }

  lemma TakeFits(c: Cache, budget: nat)
    requires WithinBudget(c.live, budget) && c.body.Some?
    ensures WithinBudget(Taken(c, Chosen(c, budget)).live, budget)
  {
    var gen := Chosen(c, budget);
    var k := At(c.live, gen.addr);
    if gen != c.body.value { assert c.live[Busiest(c.live)] in c.live; }
    if k < |c.live| {
      PinnedSameGen(c.live, k, Joined(c.live, gen)[k]);
    } else {
      PinnedSnoc(c.live, Entry(gen, 1));
    }
  }

  lemma TakeKeepsInv(c: Cache, budget: nat)
    requires Inv(c, budget) && c.body.Some?
    ensures Inv(Taken(c, Chosen(c, budget)), budget)
    ensures Held(c, Chosen(c, budget))
  {
    hide FilesMatch, Pinned, WithinBudget;
    var gen := Chosen(c, budget);
    var d := Taken(c, gen);
    var k := At(c.live, gen.addr);
    if k < |c.live| { assert IsLive(c.live, c.live[k].gen); }
    if gen != c.body.value { assert c.live[Busiest(c.live)].gen == gen; }
    assert Held(c, gen);
    JoinedCounted(c.live, c.readers, gen);
    forall g ensures Held(d, g) <==> Held(c, g) { JoinedKeepsHeld(c.live, gen, g); }
    SameHeld(c, d);
    TakeFits(c, budget);
  }

  /** The body a reader is to be handed: the current one if it is streamed already, if
      nothing is, or if holding it too stays within the budget; otherwise one that is
      streamed and has as many readers as any, the first such to have been streamed. */
  ghost predicate RightBody(c: Cache, budget: nat, gen: Gen) {
    c.body.Some?
    && if IsLive(c.live, c.body.value) || c.live == [] || Pinned(c.live) + c.body.value.size <= budget
       then gen == c.body.value
       else exists k :: 0 <= k < |c.live| && c.live[k].gen == gen && FirstBusiest(c.live, k)
  }

  ghost predicate FirstBusiest(live: seq<Entry>, k: nat)
    requires k < |live|
  {
    && (forall e | e in live :: e.readers <= live[k].readers)
    && (forall j | 0 <= j < k :: live[j].readers < live[k].readers)
  }

  /** A reader that takes the encoding gets that body and is counted there; one that does
      not, or comes while there is no body, gets nothing. */
  lemma TakeHandsOut(c: Cache, budget: nat, accepts: bool) returns (gen: Option<Gen>)
    requires Inv(c, budget)
    ensures gen.Some? <==> accepts && c.body.Some?
    ensures gen.None? ==> Step(c, budget, Take(accepts)) == c
    ensures gen.Some? ==>
              var d := Step(c, budget, Take(accepts));
              && RightBody(c, budget, gen.value)
              && d == c.(live := d.live, readers := c.readers + multiset{gen.value})
              && ReadersCounted(d.live, d.readers)
  {
    if !accepts || c.body.None? {
      return None;
    }
    gen := Some(Chosen(c, budget));
    ChosenIsRight(c, budget);
    TakeKeepsInv(c, budget);
  }

  lemma ChosenIsRight(c: Cache, budget: nat)
    requires Inv(c, budget) && c.body.Some?
    ensures RightBody(c, budget, Chosen(c, budget))
  {
    hide FilesMatch, WithinBudget, Pinned;
    var current := c.body.value;
    var k := At(c.live, current.addr);
    if k < |c.live| {
      assert IsLive(c.live, c.live[k].gen);
      assert Held(c, c.live[k].gen) && Held(c, current);
    } else {
      NoneAt(c.live, current);
    }
  }

  // ---- done ------------------------------------------------------------------

  lemma RemoveKeepsOthers(live: seq<Entry>, k: nat, g: Gen)
    requires k < |live|
    requires forall i, j :: 0 <= i < j < |live| ==> live[i].gen.addr != live[j].gen.addr
    ensures IsLive(Remove(live, k), g) <==> IsLive(live, g) && g != live[k].gen
  {
    var less := Remove(live, k);
    if j :| 0 <= j < |live| && live[j].gen == g && j != k {
      assert less[if j < k then j else j - 1].gen == g;
    }
    if j :| 0 <= j < |less| && less[j].gen == g {
      assert live[if j < k then j else j + 1].gen == g;
    }
  }

  lemma RemoveCounted(live: seq<Entry>, readers: multiset<Gen>, k: nat)
    requires ReadersCounted(live, readers) && k < |live| && live[k].readers == 1
    ensures ReadersCounted(Remove(live, k), readers - multiset{live[k].gen})
  {
    var less, now := Remove(live, k), readers - multiset{live[k].gen};
    forall i | 0 <= i < |less| ensures less[i].readers >= 1 && now[less[i].gen] == less[i].readers {
      assert less[i] == live[if i < k then i else i + 1];
    }
    forall g | g in now ensures IsLive(less, g) { RemoveKeepsOthers(live, k, g); }
  }

  lemma LeaveCounted(live: seq<Entry>, readers: multiset<Gen>, k: nat)
    requires ReadersCounted(live, readers) && k < |live| && live[k].readers > 1
    ensures var less := live[k := live[k].(readers := live[k].readers - 1)];
            ReadersCounted(less, readers - multiset{live[k].gen}) && forall g :: IsLive(less, g) <==> IsLive(live, g)
  {
    var less := live[k := live[k].(readers := live[k].readers - 1)];
    forall g ensures IsLive(less, g) <==> IsLive(live, g) {
      if j :| 0 <= j < |live| && live[j].gen == g { assert less[j].gen == g; }
      if j :| 0 <= j < |less| && less[j].gen == g { assert live[j].gen == g; }
    }
  }

  /** Nothing but the reader counts changes when a body keeps other readers. */
  lemma SameHeld(c: Cache, d: Cache)
    requires AddressesDistinct(c) && FilesMatch(c)
    requires forall g :: Held(d, g) <==> Held(c, g)
    requires d.files == c.files && d.filed == c.filed && d.made == c.made
    ensures AddressesDistinct(d) && FilesMatch(d)
  {
    hide Held;
  }

  lemma LeaveKeepsInv(c: Cache, budget: nat, gen: Gen)
    requires Inv(c, budget) && At(c.live, gen.addr) < |c.live|
    requires c.live[At(c.live, gen.addr)].gen == gen && c.live[At(c.live, gen.addr)].readers > 1
    ensures Inv(Finished(c, gen), budget)
  {
    hide At, Pinned, AddressesDistinct, FilesMatch, ReadersCounted;
    var k, d := At(c.live, gen.addr), Finished(c, gen);
    LeaveCounted(c.live, c.readers, k);
    PinnedSameGen(c.live, k, d.live[k]);
    SameHeld(c, d);
  }

  lemma LastLeaveKeepsInv(c: Cache, budget: nat, gen: Gen)
    requires Inv(c, budget) && At(c.live, gen.addr) < |c.live|
    requires c.live[At(c.live, gen.addr)].gen == gen && c.live[At(c.live, gen.addr)].readers == 1
    ensures Inv(Finished(c, gen), budget)
  {
    hide At, Pinned, FilesMatch, IsLive, Remove;
    var k, d := At(c.live, gen.addr), Finished(c, gen);
    RemoveCounted(c.live, c.readers, k);
    PinnedRemove(c.live, k);
    RemoveLength(c.live, k);
    IsLiveAt(c.live, k);
    forall g ensures Held(d, g) <==> Held(c, g) && (g != gen || c.body == Some(gen)) {
      RemoveKeepsOthers(c.live, k, g);
    }
    DropKeepsFiles(c, d, gen);
  }

  lemma IsLiveAt(live: seq<Entry>, k: nat)
    requires k < |live|
    ensures IsLive(live, live[k].gen)
  {
  }

  lemma RemoveLength<T>(s: seq<T>, k: nat)
    requires k < |s|
    ensures |Remove(s, k)| == |s| - 1
  {
  }

  lemma DoneKeepsInv(c: Cache, budget: nat, gen: Gen)
    requires Inv(c, budget) && gen in c.readers
    ensures Inv(Finished(c, gen), budget)
  {
    hide Finished, At, AddressesDistinct, FilesMatch, WithinBudget;
    AtFinds(c.live, c.readers, gen);
    if c.live[At(c.live, gen.addr)].readers > 1 {
      LeaveKeepsInv(c, budget, gen);
    } else {
      LastLeaveKeepsInv(c, budget, gen);
    }
  }

  /** The last reader leaves: the file goes with the body unless the body is current. */
  lemma DropKeepsFiles(c: Cache, d: Cache, gen: Gen)
    requires AddressesDistinct(c) && FilesMatch(c) && Held(c, gen)
    requires d.filed == c.filed && d.made == c.made
    requires d.files == if c.body == Some(gen) then c.files else c.files - {gen.addr}
    requires forall g :: Held(d, g) <==> Held(c, g) && (g != gen || c.body == Some(gen))
    ensures FilesMatch(d)
  {
    forall a | a in d.files ensures exists g :: Held(d, g) && g.addr == a && d.files[a] == g.no {
      var g :| Held(c, g) && g.addr == a && c.files[a] == g.no;
      assert Held(d, g);
    }
  }

  // ---- store -----------------------------------------------------------------

  lemma StoreKeepsInv(c: Cache, budget: nat, addr: nat, size: nat, fileWritten: bool)
    requires Inv(c, budget) && Free(c, addr)
    ensures Inv(Replaced(c, Gen(c.made, addr, size), fileWritten), budget)
  {
    var gen := Gen(c.made, addr, size);
    var d := Replaced(c, gen, fileWritten);
    forall g | Held(c, g) ensures g.addr != addr && g.no < c.made {
      if j :| 0 <= j < |c.live| && c.live[j].gen == g { assert c.live[j] in c.live; }
    }
    assert forall g :: Held(d, g) <==> g == gen || IsLive(c.live, g);
    assert addr !in c.files;
    StoreKeepsFiles(c, d, gen, fileWritten);
  }

  /** The new body gets its own file or none; the replaced body's file goes now if nobody
      streams it. */
  lemma StoreKeepsFiles(c: Cache, d: Cache, gen: Gen, fileWritten: bool)
    requires AddressesDistinct(c) && FilesMatch(c)
    requires d == Replaced(c, gen, fileWritten) && gen.no == c.made && gen.addr !in c.files
    requires forall g :: Held(d, g) <==> g == gen || IsLive(c.live, g)
    requires forall g | Held(c, g) :: g.addr != gen.addr && g.no < c.made
    ensures FilesMatch(d)
  {
    hide At, Free;
    if c.body.Some? {
      OldStaysIffLive(c, c.body.value);
    }
    forall a | a in d.files ensures exists g :: Held(d, g) && g.addr == a && d.files[a] == g.no {
      if a == gen.addr {
        assert Held(d, gen);
      } else {
        var g :| Held(c, g) && g.addr == a && c.files[a] == g.no;
        assert IsLive(c.live, g);
      }
    }
    forall g | Held(d, g) && g.no in d.filed ensures g.addr in d.files && d.files[g.addr] == g.no {
      if g != gen { assert Held(c, g); }
    }
  }

  lemma NoneAt(live: seq<Entry>, gen: Gen)
    requires At(live, gen.addr) == |live|
    ensures !IsLive(live, gen)
  {
    forall j | 0 <= j < |live| ensures live[j].gen != gen {
      assert live[j] in live;
    }
  }

  lemma OldStaysIffLive(c: Cache, was: Gen)
    requires AddressesDistinct(c) && c.body == Some(was)
    ensures At(c.live, was.addr) < |c.live| <==> IsLive(c.live, was)
  {
    var k := At(c.live, was.addr);
    if k < |c.live| {
      assert IsLive(c.live, c.live[k].gen);
      assert Held(c, was) && Held(c, c.live[k].gen);
    } else {
      NoneAt(c.live, was);
    }
  }

  /** A reader that leaves is no longer counted, and its file goes with the last reader of a
      body that is not current, and only then. */
  lemma DoneLetsGo(c: Cache, budget: nat, gen: Gen)
    requires Inv(c, budget) && gen in c.readers
    ensures var d := Step(c, budget, Done(gen));
            && d == c.(live := d.live, readers := c.readers - multiset{gen}, files := d.files)
            && ReadersCounted(d.live, d.readers)
            && d.files == if gen in d.readers || c.body == Some(gen) then c.files else c.files - {gen.addr}
  {
    DoneKeepsInv(c, budget, gen);
    AtFinds(c.live, c.readers, gen);
  }

  /** A store makes a new body current, gives it a file exactly when one was written, and
      drops the file of the body it replaces exactly when nobody streams that. */
  lemma StoreReplaces(c: Cache, budget: nat, addr: nat, size: nat, fileWritten: bool)
    requires Inv(c, budget) && Free(c, addr)
    ensures var d := Step(c, budget, Store(addr, size, fileWritten));
            && d.body == Some(Gen(c.made, addr, size)) && d.made == c.made + 1
            && d.live == c.live && d.readers == c.readers
            && d.filed == (if fileWritten then c.filed + {c.made} else c.filed)
            && (addr in d.files <==> fileWritten) && (fileWritten ==> d.files[addr] == c.made)
            && (forall a | a != addr :: a in d.files <==>
                  a in c.files && !(c.body.Some? && c.body.value.addr == a && c.body.value !in c.readers))
            && (forall a | a != addr && a in d.files :: d.files[a] == c.files[a])
  {
    hide WithinBudget;
    assert addr !in c.files by {
      forall g | Held(c, g) ensures g.addr != addr {
        if j :| 0 <= j < |c.live| && c.live[j].gen == g { assert c.live[j] in c.live; }
      }
    }
    if c.body.Some? {
      OldStaysIffLive(c, c.body.value);
      assert c.body.value in c.readers <==> IsLive(c.live, c.body.value);
    }
  }

  // ---- main results ----------------------------------------------------------

  lemma StepKeepsInv(c: Cache, budget: nat, e: Event)
    requires Inv(c, budget)
    ensures Inv(Step(c, budget, e), budget)
  {
    match e
    case Take(accepts) => if accepts && c.body.Some? { TakeKeepsInv(c, budget); }
    case Done(gen) => if gen in c.readers { DoneKeepsInv(c, budget, gen); }
    case Store(addr, size, fileWritten) =>
      if Free(c, addr) { StoreKeepsInv(c, budget, addr, size, fileWritten); }
  }

  /** In every run of takes, dones and stores, with addresses reused as freely as the
      allocator may: each live entry counts its outstanding takes, addresses tell held
      bodies apart, files match held bodies, and pinned memory is within the budget
      unless a single generation is live. */
  lemma {:induction false} CacheInEveryRun(budget: nat, events: seq<Event>)
    ensures Inv(Run(budget, events), budget)
  {
    if events != [] {
      CacheInEveryRun(budget, events[..|events| - 1]);
      StepKeepsInv(Run(budget, events[..|events| - 1]), budget, events[|events| - 1]);
    }
  }

  /** Serving is sound: while a reader streams a body, the file found under the body's
      address holds that body's payload and no other generation's, a body that was given
      a file keeps it, and no other body is held at that address. */
  lemma ReaderGetsItsOwnPayload(budget: nat, events: seq<Event>, gen: Gen)
    requires gen in Run(budget, events).readers
    ensures var c := Run(budget, events);
            && (gen.addr in c.files ==> c.files[gen.addr] == gen.no)
            && (gen.no in c.filed ==> gen.addr in c.files)
            && (forall h | Held(c, h) && h.addr == gen.addr :: h == gen)
  {
    CacheInEveryRun(budget, events);
    var c := Run(budget, events);
    assert IsLive(c.live, gen);
    assert Held(c, gen);
  }

  /** No key outlives its body: every key of `files`, and every live entry, belongs to the
      current body or to one a reader still streams. */
  lemma NoKeyOutlivesItsBody(budget: nat, events: seq<Event>)
    ensures var c := Run(budget, events);
            && (forall k | 0 <= k < |c.live| :: c.live[k].gen in c.readers)
            && (forall a | a in c.files ::
                  (c.body.Some? && c.body.value.addr == a) || exists g :: g in c.readers && g.addr == a)
  {
    CacheInEveryRun(budget, events);
    var c := Run(budget, events);
    forall a | a in c.files
      ensures (c.body.Some? && c.body.value.addr == a) || exists g :: g in c.readers && g.addr == a
    {
      var g :| Held(c, g) && g.addr == a && c.files[a] == g.no;
      if c.body != Some(g) {
        assert g in c.readers;
      }
    }
  }
}
