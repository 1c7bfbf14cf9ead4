/**
 * Exactly-once storage end to end (app/server.js:113-205, 249-255, 709-726;
 * app/db_service.js:161-242, 348-379): clients retry as they like through any backend,
 * requests are repeated or lost, batches are cut anyhow, replies are lost or late.
 *
 * A call is one append a backend has sent to the database.  `Commit` applies any calls
 * ever sent, in any grouping and as often as the network repeats them; each application
 * makes one reply, and a reply is delivered at most once.
 */
module ExactlyOnce {
  import opened Common
  import opened MessageTable
  import opened DedupLru

  datatype Call = Call(backend: nat, job: Job)

  datatype Reply = Reply(call: nat, outcome: Outcome)

  /** What a client is told when its message is accepted. */
  datatype Ack = Ack(id: Id, num: nat, duplicate: bool)

  datatype World = World(
    rows: seq<Row>,
    lrus: map<nat, seq<Known>>,
    calls: seq<Call>,
    open: set<nat>,
    replies: seq<Reply>,
    acks: seq<Ack>)

  datatype Event =
    | Post(backend: nat, job: Job)
    | Commit(batch: seq<nat>, commits: bool)
    | Deliver(i: nat)
    | Lose(i: nat)
    | GiveUp(call: nat)
    | Firehose(backend: nat, k: nat)
    | Restart(backend: nat)

  function Lru(w: World, backend: nat): seq<Known> {
    if backend in w.lrus then w.lrus[backend] else []
  }

  function Note(w: World, size: nat, backend: nat, e: Known): World {
    w.(lrus := w.lrus[backend := Remember(Lru(w, backend), size, e)])
  }

  /** Every call of the batch has been sent. */
  predicate Issued(calls: seq<Call>, batch: seq<nat>) {
    forall i | 0 <= i < |batch| :: batch[i] < |calls|
  }

  function JobsOf(calls: seq<Call>, batch: seq<nat>): (jobs: seq<Job>)
    requires Issued(calls, batch)
    ensures |jobs| == |batch|
  {
    seq(|batch|, i requires 0 <= i < |batch| => calls[batch[i]].job)
  }

  function RepliesOf(batch: seq<nat>, outcomes: seq<Outcome>): (r: seq<Reply>)
    requires |batch| == |outcomes|
    ensures |r| == |batch|
  {
    seq(|batch|, i requires 0 <= i < |batch| => Reply(batch[i], outcomes[i]))
  }

  /** A reply reaches its caller: unless the caller has given up, the row is remembered
      and the client is told.  A failed append is only an error to the caller. */
  function Take(w: World, size: nat, r: Reply): World
    requires r.call < |w.calls|
  {
    var call := w.calls[r.call];
    var closed := w.(open := w.open - {r.call});
    if r.call !in w.open || r.outcome.Failed? then closed
    else
      var id := call.job.entry.id;
      Note(closed, size, call.backend, Known(id, r.outcome.row.num))
      .(acks := w.acks + [Ack(id, r.outcome.row.num, r.outcome.Duplicate?)])
  }

  function Step(w: World, size: nat, e: Event): World {
    match e
    case Post(backend, job) => (
      match Recall(Lru(w, backend), job.entry.id)
      case Some(known) => w.(acks := w.acks + [Ack(job.entry.id, known.num, true)])
      case None => w.(calls := w.calls + [Call(backend, job)], open := w.open + {|w.calls|}))
    case Commit(batch, commits) =>
      if !commits || !Issued(w.calls, batch) then w
      else
        var a := Apply(w.rows, JobsOf(w.calls, batch));
        w.(rows := a.rows, replies := w.replies + RepliesOf(batch, a.outcomes))
    case Deliver(i) =>
      if i < |w.replies| && w.replies[i].call < |w.calls|
      then Take(w.(replies := Remove(w.replies, i)), size, w.replies[i]) else w
    case Lose(i) => if i < |w.replies| then w.(replies := Remove(w.replies, i)) else w
    case GiveUp(call) => w.(open := w.open - {call})
    case Firehose(backend, k) =>
      if k < |w.rows| then Note(w, size, backend, Known(w.rows[k].id, w.rows[k].num)) else w
    case Restart(backend) => w.(lrus := w.lrus - {backend})
  }

  function Run(w: World, size: nat, events: seq<Event>): World {
    if events == [] then w else Step(Run(w, size, events[..|events| - 1]), size, events[|events| - 1])
  }

  // ---- counting first answers ------------------------------------------------

  /** Outcomes, replies and acknowledgements that claim to have stored `id` themselves. */
  function StoredOutcomes(outcomes: seq<Outcome>, id: Id): nat {
    if outcomes == [] then 0
    else
      var last := outcomes[|outcomes| - 1];
      StoredOutcomes(outcomes[..|outcomes| - 1], id) + if last.Stored? && last.row.id == id then 1 else 0
  }

  function StoredReplies(replies: seq<Reply>, id: Id): nat {
    if replies == [] then 0
    else
      var last := replies[|replies| - 1].outcome;
      StoredReplies(replies[..|replies| - 1], id) + if last.Stored? && last.row.id == id then 1 else 0
  }

  function FirstAcks(acks: seq<Ack>, id: Id): nat {
    if acks == [] then 0
    else
      var last := acks[|acks| - 1];
      FirstAcks(acks[..|acks| - 1], id) + if last.id == id && !last.duplicate then 1 else 0
  }

  function Present(rows: seq<Row>, id: Id): nat {
    if Find(rows, id).Some? then 1 else 0
  }

  /** A batch claims an id exactly as often as it brings it into the table: once or never. */
  lemma {:induction false} StoredOncePerId(rows: seq<Row>, jobs: seq<Job>, id: Id)
    ensures Present(Apply(rows, jobs).rows, id)
            == Present(rows, id) + StoredOutcomes(Apply(rows, jobs).outcomes, id)
  {
    if jobs != [] {
      var n := |jobs| - 1;
      StoredOncePerId(rows, jobs[..n], id);
      var before, after := Apply(rows, jobs[..n]), Apply(rows, jobs);
      assert after.outcomes[..n] == before.outcomes;
      if Decide(before.rows, jobs[n]).Stored? {
        assert after.rows[..|after.rows| - 1] == before.rows;
      }
    }
  }

  lemma {:induction false} StoredRepliesConcat(a: seq<Reply>, b: seq<Reply>, id: Id)
    ensures StoredReplies(a + b, id) == StoredReplies(a, id) + StoredReplies(b, id)
  {
    if b == [] {
      assert a + b == a;
    } else {
      StoredRepliesConcat(a, b[..|b| - 1], id);
      assert (a + b)[..|a + b| - 1] == a + b[..|b| - 1];
    }
  }

  lemma {:induction false} StoredRepliesOf(batch: seq<nat>, outcomes: seq<Outcome>, id: Id)
    requires |batch| == |outcomes|
    ensures StoredReplies(RepliesOf(batch, outcomes), id) == StoredOutcomes(outcomes, id)
  {
    if batch != [] {
      var n := |batch| - 1;
      StoredRepliesOf(batch[..n], outcomes[..n], id);
      assert RepliesOf(batch, outcomes)[..n] == RepliesOf(batch[..n], outcomes[..n]);
    }
  }

  lemma StoredRepliesRemove(replies: seq<Reply>, i: nat, id: Id)
    requires i < |replies|
    ensures var o := replies[i].outcome;
            StoredReplies(replies, id)
            == StoredReplies(Remove(replies, i), id) + if o.Stored? && o.row.id == id then 1 else 0
  {
    var one := [replies[i]];
    assert one[..0] == [];
    assert replies == (replies[..i] + one) + replies[i + 1..];
    StoredRepliesConcat(replies[..i] + one, replies[i + 1..], id);
    StoredRepliesConcat(replies[..i], one, id);
    StoredRepliesConcat(replies[..i], replies[i + 1..], id);
  }

  // ---- invariant -------------------------------------------------------------

  /** The table holds a row for `id`, and its number is `num`. */
  ghost predicate Stands(rows: seq<Row>, id: Id, num: nat) {
    Find(rows, id).Some? && Find(rows, id).value.num == num
  }

  ghost predicate ReplyOk(r: Reply, calls: seq<Call>, rows: seq<Row>) {
    && r.call < |calls|
    && (!r.outcome.Failed? ==> Find(rows, calls[r.call].job.entry.id) == Some(r.outcome.row))
  }

  ghost predicate Inv(w: World) {
    && Consistent(w.rows)
    && (forall b, e | b in w.lrus && e in w.lrus[b] :: Stands(w.rows, e.id, e.num))
    && (forall r | r in w.replies :: ReplyOk(r, w.calls, w.rows))
    && (forall a | a in w.acks :: Stands(w.rows, a.id, a.num))
    && (forall id :: StoredReplies(w.replies, id) + FirstAcks(w.acks, id) <= Present(w.rows, id))
  }

  lemma NoteKeepsInv(w: World, size: nat, backend: nat, e: Known)
    requires Inv(w) && Stands(w.rows, e.id, e.num)
    ensures Inv(Note(w, size, backend, e))
  {
    var v := Note(w, size, backend, e);
    ForgetMembers(Lru(w, backend), e.id);
    forall b, x | b in v.lrus && x in v.lrus[b] ensures Stands(v.rows, x.id, x.num) {
      if b == backend {
        assert x in Forget(Lru(w, backend), e.id) + [e];
      }
    }
  }

  lemma TableGrows(w: World, jobs: seq<Job>)
    requires Inv(w)
    ensures var rows := Apply(w.rows, jobs).rows;
            && Consistent(rows) && w.rows <= rows
            && (forall id | Find(w.rows, id).Some? :: Find(rows, id) == Find(w.rows, id))
  {
    var rows := Apply(w.rows, jobs).rows;
    ApplyKeepsConsistent(w.rows, jobs);
    ApplyAppendsInserted(w.rows, jobs);
    forall id | Find(w.rows, id).Some? ensures Find(rows, id) == Find(w.rows, id) {
      FindStable(w.rows, rows, id);
    }
  }

  lemma CommitKeepsInv(w: World, size: nat, batch: seq<nat>)
    requires Inv(w) && Issued(w.calls, batch)
    ensures Inv(Step(w, size, Commit(batch, true)))
  {
    hide Apply, Find, Consistent, FirstAcks, StoredReplies, StoredOutcomes, Remember;
    var jobs := JobsOf(w.calls, batch);
    var a := Apply(w.rows, jobs);
    var more := RepliesOf(batch, a.outcomes);
    var v := Step(w, size, Commit(batch, true));
    TableGrows(w, jobs);
    forall r | r in v.replies ensures ReplyOk(r, v.calls, v.rows) {
      if r in w.replies {
        assert ReplyOk(r, w.calls, w.rows);
      } else {
        var i :| 0 <= i < |more| && more[i] == r;
        AnswersAgreeWithTable(w.rows, jobs, i);
      }
    }
    forall id ensures StoredReplies(v.replies, id) + FirstAcks(v.acks, id) <= Present(v.rows, id) {
      StoredOncePerId(w.rows, jobs, id);
      StoredRepliesConcat(w.replies, more, id);
      StoredRepliesOf(batch, a.outcomes, id);
    }
  }

  lemma LoseKeepsInv(w: World, size: nat, i: nat)
    requires Inv(w) && i < |w.replies|
    ensures Inv(Step(w, size, Lose(i)))
  {
    var u := w.(replies := Remove(w.replies, i));
    forall id ensures StoredReplies(u.replies, id) <= StoredReplies(w.replies, id) {
      StoredRepliesRemove(w.replies, i, id);
    }
    assert forall s | s in u.replies :: s in w.replies;
  }

  /** Turning reply `i` into the acknowledgement it stands for keeps the count. */
  lemma AckKeepsInv(w: World, i: nat)
    requires Inv(w) && i < |w.replies| && !w.replies[i].outcome.Failed?
    ensures var o := w.replies[i].outcome;
            var ack := Ack(o.row.id, o.row.num, o.Duplicate?);
            Inv(w.(replies := Remove(w.replies, i), acks := w.acks + [ack]))
  {
    var r := w.replies[i];
    var ack := Ack(r.outcome.row.id, r.outcome.row.num, r.outcome.Duplicate?);
    var v := w.(replies := Remove(w.replies, i), acks := w.acks + [ack]);
    assert ReplyOk(r, w.calls, w.rows);
    assert v.acks[..|w.acks|] == w.acks;
    forall id ensures StoredReplies(v.replies, id) + FirstAcks(v.acks, id) <= Present(v.rows, id) {
      StoredRepliesRemove(w.replies, i, id);
    }
    assert forall s | s in v.replies :: s in w.replies;
  }

  lemma DeliverKeepsInv(w: World, size: nat, i: nat)
    requires Inv(w) && i < |w.replies|
    ensures Inv(Step(w, size, Deliver(i)))
  {
    var r := w.replies[i];
    assert ReplyOk(r, w.calls, w.rows);
    if r.call !in w.open || r.outcome.Failed? {
      LoseKeepsInv(w, size, i);
    } else {
      var call := w.calls[r.call];
      var ack := Ack(r.outcome.row.id, r.outcome.row.num, r.outcome.Duplicate?);
      AckKeepsInv(w, i);
      var v := w.(replies := Remove(w.replies, i), acks := w.acks + [ack]);
      NoteKeepsInv(v, size, call.backend, Known(ack.id, ack.num));
    }
  }

  lemma PostKeepsInv(w: World, size: nat, backend: nat, job: Job)
    requires Inv(w)
    ensures Inv(Step(w, size, Post(backend, job)))
  {
    var v := Step(w, size, Post(backend, job));
    if v.acks != w.acks {
      assert v.acks[..|w.acks|] == w.acks;
    }
    forall r | r in v.replies ensures ReplyOk(r, v.calls, v.rows) {
      assert ReplyOk(r, w.calls, w.rows);
    }
  }

  lemma StepKeepsInv(w: World, size: nat, e: Event)
    requires Inv(w)
    ensures Inv(Step(w, size, e))
  {
    match e
    case Post(backend, job) => PostKeepsInv(w, size, backend, job);
    case Commit(batch, commits) =>
      if commits && Issued(w.calls, batch) { CommitKeepsInv(w, size, batch); }
    case Deliver(i) => if i < |w.replies| { DeliverKeepsInv(w, size, i); }
    case Lose(i) => if i < |w.replies| { LoseKeepsInv(w, size, i); }
    case GiveUp(call) =>
    case Firehose(backend, k) =>
      if k < |w.rows| {
        FindReturns(w.rows, w.rows[k]);
        NoteKeepsInv(w, size, backend, Known(w.rows[k].id, w.rows[k].num));
      }
    case Restart(backend) =>
  }

  /** The backend remembers this id. */
  ghost predicate Knows(w: World, backend: nat, id: Id) {
    backend in w.lrus && exists e :: e in w.lrus[backend] && e.id == id
  }

  lemma KnowsIsRecall(w: World, backend: nat, id: Id)
    ensures Knows(w, backend, id) <==> Recall(Lru(w, backend), id).Some?
  {
  }

  /** A message the backend remembers is answered on the spot, as a duplicate. */
  lemma RememberedIsAnsweredAtOnce(w: World, size: nat, backend: nat, job: Job)
    requires Inv(w) && Knows(w, backend, job.entry.id)
    ensures var id := job.entry.id;
            && Find(w.rows, id).Some?
            && Step(w, size, Post(backend, job)) == w.(acks := w.acks + [Ack(id, Find(w.rows, id).value.num, true)])
  {
    KnowsIsRecall(w, backend, job.entry.id);
    var known := Recall(Lru(w, backend), job.entry.id).value;
    assert backend in w.lrus && known in w.lrus[backend];
    assert Stands(w.rows, known.id, known.num);
  }

  /** A request sent to the database alone, and answered. */
  function Exchange(w: World, size: nat, backend: nat, job: Job): World {
    var asked := Step(w, size, Post(backend, job));
    Step(Step(asked, size, Commit([|w.calls|], true)), size, Deliver(|w.replies|))
  }

  /** Any other request that is neither lost nor repeated is answered once the database has
      committed it and the reply has arrived: with the number of the one row of its message,
      as a duplicate exactly when the message was stored before, and remembered from then on. */
  lemma UndisturbedPostIsAnswered(w: World, size: nat, backend: nat, job: Job)
    requires Inv(w) && !Knows(w, backend, job.entry.id)
    requires job.entry.storable && job.entry.loggable
    ensures var id, done := job.entry.id, Exchange(w, size, backend, job);
            var known := if backend in w.lrus then w.lrus[backend] else [];
            && done.rows == AppendOne(w.rows, job) && Find(done.rows, id).Some?
            && (Find(w.rows, id).None? ==> CarriedBy(Find(done.rows, id).value, job))
            && done == w.(rows := done.rows, calls := w.calls + [Call(backend, job)], open := w.open - {|w.calls|},
                          acks := w.acks + [Ack(id, Find(done.rows, id).value.num, Find(w.rows, id).Some?)],
                          lrus := w.lrus[backend := Remember(known, size, Known(id, Find(done.rows, id).value.num))])
  {
    hide Inv, Consistent, Remember;
    KnowsIsRecall(w, backend, job.entry.id);
    var call := |w.calls|;
    var asked := Step(w, size, Post(backend, job));
    assert JobsOf(asked.calls, [call]) == [job];
    ApplyOne(w.rows, job);
    var committed := Step(asked, size, Commit([call], true));
    var o := Decide(w.rows, job);
    assert RepliesOf([call], [o]) == [Reply(call, o)];
    assert committed.replies == w.replies + [Reply(call, o)];
    assert Remove(committed.replies, |w.replies|) == w.replies;
    assert w.open + {call} - {call} == w.open - {call};
  }

  lemma ApplyOne(rows: seq<Row>, job: Job)
    requires job.entry.storable && job.entry.loggable
    ensures Apply(rows, [job]) == Applied(AppendOne(rows, job), [Decide(rows, job)])
    ensures Find(AppendOne(rows, job), job.entry.id) == Some(Decide(rows, job).row)
    ensures Decide(rows, job).row.id == job.entry.id
    ensures if Find(rows, job.entry.id).Some? then Decide(rows, job).Duplicate?
            else Decide(rows, job).Stored? && CarriedBy(Decide(rows, job).row, job)
  {
    assert [job][..0] == [];
    assert Apply(rows, []) == Applied(rows, []);
  }

  /** A call whose caller has given up, or was answered before, is answered no more: its
      reply is dropped and nothing else happens. */
  lemma ClosedIsSilent(w: World, size: nat, i: nat)
    requires Inv(w) && i < |w.replies|
    requires w.replies[i].call !in w.open
    ensures Step(w, size, Deliver(i)) == w.(replies := Remove(w.replies, i))
  {
    assert ReplyOk(w.replies[i], w.calls, w.rows);
    assert w.open - {w.replies[i].call} == w.open;
  }

  /** Giving up closes the call, and so does its reply, whatever that says. */
  lemma CallsClose(w: World, size: nat, call: nat, i: nat)
    requires Inv(w)
    ensures Step(w, size, GiveUp(call)) == w.(open := w.open - {call})
    ensures i < |w.replies| ==> w.replies[i].call !in Step(w, size, Deliver(i)).open
  {
    if i < |w.replies| { assert ReplyOk(w.replies[i], w.calls, w.rows); }
  }

  /** A row heard on the firehose is remembered; a restart forgets everything remembered, and
      nothing else. */
  lemma HeardIsRemembered(w: World, size: nat, backend: nat, k: nat)
    requires size >= 1 && k < |w.rows|
    ensures Knows(Step(w, size, Firehose(backend, k)), backend, w.rows[k].id)
    ensures var v := Step(w, size, Restart(backend));
            && v == w.(lrus := v.lrus) && (forall id :: !Knows(v, backend, id))
            && (forall b, id | b != backend :: Knows(v, b, id) <==> Knows(w, b, id))
  {
    var row := w.rows[k];
    var v := Step(w, size, Firehose(backend, k));
    var more := Forget(Lru(w, backend), row.id) + [Known(row.id, row.num)];
    assert v.lrus[backend][|v.lrus[backend]| - 1] == more[|more| - 1];
    assert Known(row.id, row.num) in v.lrus[backend];
  }

  /** Any table the service may start from, with nothing in flight. */
  function Fresh(rows: seq<Row>): World {
    World(rows, map[], [], {}, [], [])
  }

  lemma {:induction false} InvInEveryRun(rows: seq<Row>, size: nat, events: seq<Event>)
    requires Consistent(rows)
    ensures Inv(Run(Fresh(rows), size, events))
  {
    if events != [] {
      InvInEveryRun(rows, size, events[..|events| - 1]);
      StepKeepsInv(Run(Fresh(rows), size, events[..|events| - 1]), size, events[|events| - 1]);
    }
  }

  /** Exactly once: in every run each id has at most one row; every acknowledgement and
      every remembered id names the number of that row; and at most one client is ever
      told that its attempt was the one that stored the message. */
  lemma StoredExactlyOnce(rows: seq<Row>, size: nat, events: seq<Event>)
    requires Consistent(rows)
    ensures var w := Run(Fresh(rows), size, events);
            && UniqueIds(w.rows)
            && (forall a | a in w.acks :: Stands(w.rows, a.id, a.num))
            && (forall b, e | b in w.lrus && e in w.lrus[b] :: Stands(w.rows, e.id, e.num))
            && (forall i, j :: 0 <= i < j < |w.acks| && w.acks[i].id == w.acks[j].id
                  ==> w.acks[i].duplicate || w.acks[j].duplicate)
  {
    InvInEveryRun(rows, size, events);
    var w := Run(Fresh(rows), size, events);
    forall i, j | 0 <= i < j < |w.acks| && w.acks[i].id == w.acks[j].id
      ensures w.acks[i].duplicate || w.acks[j].duplicate
    {
      if !w.acks[i].duplicate && !w.acks[j].duplicate { TwoFirsts(w.acks, i, j); }
    }
  }

  lemma {:induction false} TwoFirsts(acks: seq<Ack>, i: nat, j: nat)
    requires i < j < |acks| && acks[i].id == acks[j].id && !acks[i].duplicate && !acks[j].duplicate
    ensures FirstAcks(acks, acks[i].id) >= 2
  {
    var n := |acks| - 1;
    if j < n {
      TwoFirsts(acks[..n], i, j);
    } else {
      OneFirst(acks[..n], i);
    }
  }

  lemma {:induction false} OneFirst(acks: seq<Ack>, i: nat)
    requires i < |acks| && !acks[i].duplicate
    ensures FirstAcks(acks, acks[i].id) >= 1
  {
    if i < |acks| - 1 {
      OneFirst(acks[..|acks| - 1], i);
    }
  }

  /** An acknowledged message is never lost again: whatever happens after the
      acknowledgement, its row stays in the table under the number it was given. */
  lemma {:induction false} AcknowledgedIsDurable(w: World, size: nat, events: seq<Event>, a: Ack)
    requires Inv(w) && a in w.acks
    ensures Inv(Run(w, size, events)) && a in Run(w, size, events).acks
    ensures Stands(Run(w, size, events).rows, a.id, a.num)
    ensures w.rows <= Run(w, size, events).rows
  {
    if events != [] {
      var front, e := events[..|events| - 1], events[|events| - 1];
      AcknowledgedIsDurable(w, size, front, a);
      var v := Run(w, size, front);
      StepKeepsInv(v, size, e);
      if e.Commit? && e.commits && Issued(v.calls, e.batch) {
        TableGrows(v, JobsOf(v.calls, e.batch));
      }
    }
  }

  /** Nothing is invented: every row was in the first table or carries a message that some
      backend was asked to store. */
  lemma {:induction false} RowsWerePosted(rows: seq<Row>, size: nat, events: seq<Event>, row: Row)
    requires row in Run(Fresh(rows), size, events).rows
    ensures var calls := Run(Fresh(rows), size, events).calls;
            row in rows || exists k :: 0 <= k < |calls| && CarriedBy(row, calls[k].job)
  {
    if events != [] {
      var front, e := events[..|events| - 1], events[|events| - 1];
      var v, w := Run(Fresh(rows), size, front), Run(Fresh(rows), size, events);
      if row in v.rows {
        RowsWerePosted(rows, size, front, row);
        assert v.calls <= w.calls;
      } else {
        var jobs := JobsOf(v.calls, e.batch);
        RowsComeFromJobs(v.rows, jobs, row);
        var j :| 0 <= j < |jobs| && CarriedBy(row, jobs[j]);
        assert CarriedBy(row, w.calls[e.batch[j]].job);
      }
    }
  }
}
