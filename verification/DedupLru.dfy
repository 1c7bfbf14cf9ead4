/**
 * The ids a backend knows to be stored (app/server.js:249-255): a JavaScript Map used as
 * a bounded least-recently-remembered list, oldest key first.
 */
module DedupLru {
  import opened Common
  import opened MessageTable

  datatype Known = Known(id: Id, num: nat)

  /** seenIds.delete(id) */
  function Forget(entries: seq<Known>, id: Id): seq<Known> {
    if entries == [] then []
    else
      var front, last := Forget(entries[..|entries| - 1], id), entries[|entries| - 1];
      if last.id == id then front else front + [last]
  }

  /** seenIds.get(id) */
  function Recall(entries: seq<Known>, id: Id): (r: Option<Known>)
    ensures r.Some? ==> r.value in entries && r.value.id == id
    ensures r.None? ==> forall e | e in entries :: e.id != id
  {
    if entries == [] then None
    else
      var last := entries[|entries| - 1];
      if last.id == id then Some(last) else Recall(entries[..|entries| - 1], id)
  }

  function Remember(entries: seq<Known>, size: nat, e: Known): seq<Known> {
    var more := Forget(entries, e.id) + [e];
    if |more| > size then more[1..] else more
  }

  function RememberAll(size: nat, history: seq<Known>): seq<Known> {
    if history == [] then []
    else Remember(RememberAll(size, history[..|history| - 1]), size, history[|history| - 1])
  }

  class SeenIds {
    const size: nat
    var entries: seq<Known>

    constructor (size: nat)
      ensures this.size == size && entries == []
    {
      this.size, entries := size, [];
    }

    method RememberId(e: Known)
      modifies this
      ensures entries == Remember(old(entries), size, e)
    {
      if Recall(entries, e.id).Some? {
        entries := Forget(entries, e.id);
      } else {
        ForgetAbsent(entries, e.id);
      }
      entries := entries + [e];
      if |entries| > size {
        entries := entries[1..];
      }
    }
  }

  // ---- which ids are still known ---------------------------------------------

  /** A remembering that is not repeated later for the same id. */
  ghost predicate IsLatest(history: seq<Known>, i: nat)
    requires i < |history|
  {
    forall j | i < j < |history| :: history[j].id != history[i].id
  }

  /** The history with every superseded remembering left out. */
  function Latest(history: seq<Known>): seq<Known> {
    if history == [] then []
    else Forget(Latest(history[..|history| - 1]), history[|history| - 1].id) + [history[|history| - 1]]
  }

  lemma {:induction false} ForgetAbsent(entries: seq<Known>, id: Id)
    requires forall e | e in entries :: e.id != id
    ensures Forget(entries, id) == entries
  {
    if entries != [] {
      ForgetAbsent(entries[..|entries| - 1], id);
      assert entries == entries[..|entries| - 1] + [entries[|entries| - 1]];
    }
  }

  lemma {:induction false} ForgetMembers(entries: seq<Known>, id: Id)
    ensures forall e :: e in Forget(entries, id) <==> e in entries && e.id != id
    ensures |Forget(entries, id)| <= |entries|
  {
    if entries != [] {
      ForgetMembers(entries[..|entries| - 1], id);
      assert entries == entries[..|entries| - 1] + [entries[|entries| - 1]];
    }
  }

  ghost predicate LatestFor(history: seq<Known>, e: Known) {
    exists i :: 0 <= i < |history| && history[i] == e && IsLatest(history, i)
  }

  lemma LatestForSnoc(front: seq<Known>, last: Known, e: Known)
    ensures LatestFor(front + [last], e) <==> e == last || (LatestFor(front, e) && e.id != last.id)
  {
    var history := front + [last];
    if e == last {
      assert history[|front|] == e && IsLatest(history, |front|);
    }
    if LatestFor(front, e) && e.id != last.id {
      var i :| 0 <= i < |front| && front[i] == e && IsLatest(front, i);
      assert history[i] == e && IsLatest(history, i);
    }
    if LatestFor(history, e) && e != last {
      var i :| 0 <= i < |history| && history[i] == e && IsLatest(history, i);
      assert history[|front|].id != history[i].id;
      assert forall j | i < j < |front| :: front[j] == history[j];
      assert front[i] == e && IsLatest(front, i);
    }
  }

  /** `Latest` holds exactly the latest remembering of each id. */
  lemma {:induction false} LatestMembers(history: seq<Known>, e: Known)
    ensures e in Latest(history) <==> LatestFor(history, e)
  {
    if history != [] {
      var n := |history| - 1;
      LatestMembers(history[..n], e);
      ForgetMembers(Latest(history[..n]), history[n].id);
      LatestForSnoc(history[..n], history[n], e);
      assert history == history[..n] + [history[n]];
    }
  }

  ghost predicate KeysDistinct(entries: seq<Known>) {
    forall i, j :: 0 <= i < j < |entries| ==> entries[i].id != entries[j].id
  }

  lemma {:induction false} ForgetKeepsDistinct(entries: seq<Known>, id: Id)
    requires KeysDistinct(entries)
    ensures KeysDistinct(Forget(entries, id))
  {
    if entries != [] {
      var front, last := entries[..|entries| - 1], entries[|entries| - 1];
      ForgetKeepsDistinct(front, id);
      ForgetMembers(front, id);
      var kept := Forget(front, id);
      forall i | 0 <= i < |kept| ensures kept[i].id != last.id {
        assert kept[i] in front;
      }
    }
  }

  lemma {:induction false} LatestDistinct(history: seq<Known>)
    ensures KeysDistinct(Latest(history))
  {
    if history != [] {
      var front, last := Latest(history[..|history| - 1]), history[|history| - 1];
      LatestDistinct(history[..|history| - 1]);
      ForgetKeepsDistinct(front, last.id);
      ForgetMembers(front, last.id);
      var kept := Forget(front, last.id);
      forall i | 0 <= i < |kept| ensures kept[i].id != last.id {
        assert kept[i] in kept;
      }
    }
  }

  lemma {:induction false} ForgetConcat(a: seq<Known>, b: seq<Known>, id: Id)
    ensures Forget(a + b, id) == Forget(a, id) + Forget(b, id)
  {
    if b == [] {
      assert a + b == a;
    } else {
      var front, last := b[..|b| - 1], b[|b| - 1];
      ForgetConcat(a, front, id);
      assert (a + b)[..|a + b| - 1] == a + front;
    }
  }

  lemma {:induction false} ForgetOne(entries: seq<Known>, id: Id)
    requires KeysDistinct(entries)
    ensures |Forget(entries, id)| >= |entries| - 1
    ensures (exists e :: e in entries && e.id == id) ==> |Forget(entries, id)| == |entries| - 1
  {
    if entries != [] {
      var front, last := entries[..|entries| - 1], entries[|entries| - 1];
      if last.id == id {
        ForgetAbsent(front, id);
      } else {
        ForgetOne(front, id);
        assert entries == front + [last];
      }
    }
  }

  lemma RememberKnown(cut: seq<Known>, kept: seq<Known>, size: nat, e: Known, x: Known)
    requires KeysDistinct(cut + kept) && KeysDistinct(kept) && |kept| <= size && (cut == [] || |kept| == size)
    requires x in kept && x.id == e.id
    ensures Remember(kept, size, e) == LastN(Forget(cut + kept, e.id) + [e], size)
  {
    ForgetConcat(cut, kept, e.id);
    ForgetWhenKept(cut, kept, x);
    ForgetOne(kept, e.id);
    assert Forget(cut + kept, e.id) + [e] == cut + (Forget(kept, e.id) + [e]);
    CutAgain(cut, Forget(kept, e.id) + [e], size);
  }

  lemma RememberUnknown(cut: seq<Known>, kept: seq<Known>, size: nat, e: Known)
    requires |kept| <= size && (cut == [] || |kept| == size)
    requires forall x | x in kept :: x.id != e.id
    ensures Remember(kept, size, e) == LastN(Forget(cut + kept, e.id) + [e], size)
  {
    ForgetConcat(cut, kept, e.id);
    ForgetAbsent(kept, e.id);
    assert Forget(cut + kept, e.id) + [e] == Forget(cut, e.id) + (kept + [e]);
    CutAgain(Forget(cut, e.id), kept + [e], size);
  }

  /** Remembering into the bounded list is remembering into the full one, then cutting. */
  lemma RememberLastN(all: seq<Known>, size: nat, e: Known)
    requires KeysDistinct(all)
    ensures Remember(LastN(all, size), size, e) == LastN(Forget(all, e.id) + [e], size)
  {
    var kept := LastN(all, size);
    var cut := all[..|all| - |kept|];
    assert all == cut + kept;
    if x :| x in kept && x.id == e.id {
      RememberKnown(cut, kept, size, e, x);
    } else {
      RememberUnknown(cut, kept, size, e);
    }
  }

  lemma ForgetWhenKept(cut: seq<Known>, kept: seq<Known>, x: Known)
    requires KeysDistinct(cut + kept) && x in kept
    ensures Forget(cut, x.id) == cut
  {
    var j :| 0 <= j < |kept| && kept[j] == x;
    forall y | y in cut ensures y.id != x.id {
      var i :| 0 <= i < |cut| && cut[i] == y;
      assert (cut + kept)[i] == y && (cut + kept)[|cut| + j] == x;
    }
    ForgetAbsent(cut, x.id);
  }

  lemma CutAgain(cut: seq<Known>, kept: seq<Known>, size: nat)
    requires |kept| >= size || cut == []
    ensures LastN(cut + kept, size) == LastN(kept, size)
  {
  }

  /** The bounded list is exactly the `size` most recently remembered ids with the number
      last given for each: an id is forgotten only after `size` other ids. */
  lemma {:induction false} KeepsMostRecent(size: nat, history: seq<Known>)
    ensures RememberAll(size, history) == LastN(Latest(history), size)
  {
    if history != [] {
      KeepsMostRecent(size, history[..|history| - 1]);
      LatestDistinct(history[..|history| - 1]);
      RememberLastN(Latest(history[..|history| - 1]), size, history[|history| - 1]);
    }
  }
}
