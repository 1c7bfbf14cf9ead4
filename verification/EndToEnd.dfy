/**
 * The whole path of a public message: from a client's request through the database
 * (`ExactlyOnce`) to a backend's copy of the room (`Replica`).  The log the replica
 * follows is the public room of the table, read through the paging route.
 */
module EndToEnd {
  import opened Common
  import opened MessageTable
  import ExactlyOnce
  import FeedPaging
  import Replica

  // ---- the log is the public room --------------------------------------------

  /** The rows a poll is answered with are those of the paging route, whatever its cursor. */
  lemma BlockIsFeedPage(rows: seq<Row>, since: nat, size: nat)
    requires Consistent(rows) && size >= 1
    ensures Replica.Block(InRoom(rows, PUBLIC), since, size) == FeedPaging.FeedPage(rows, PUBLIC, since, size).rows
  {
    FeedPaging.PageIsBlock(rows, PUBLIC, since, size);
  }

  /** So polls and catch-ups are answered by the paging route, with the sizes they ask for. */
  lemma AnswersAreFeedPages(rows: seq<Row>, c: Replica.Config, since: nat, asOf: nat)
    requires Consistent(rows) && c.Valid()
    ensures var log := InRoom(rows, PUBLIC);
            var poll := Replica.Respond(log, c, Replica.Poll(since), asOf);
            var catchUp := Replica.Respond(log, c, Replica.CatchUp(since), asOf);
            && poll.rows == FeedPaging.FeedPage(rows, PUBLIC, since, FeedPaging.PageSize(c.pollMax, c.pageMax)).rows
            && catchUp.rows == FeedPaging.FeedPage(rows, PUBLIC, since, FeedPaging.PageSize(c.feedMax, c.pageMax)).rows
            && poll.start == catchUp.start == since && poll.reported == catchUp.reported == |log|
  {
    hide FeedPaging.FeedPage, Replica.Block;
    BlockIsFeedPage(rows, since, c.PollPage());
    BlockIsFeedPage(rows, since, c.CatchUpPage());
    assert FeedPaging.PageSize(c.pollMax, c.pageMax) == c.PollPage();
    assert FeedPaging.PageSize(c.feedMax, c.pageMax) == c.CatchUpPage();
  }

  lemma {:induction false} InRoomMembers(rows: seq<Row>, room: Room, row: Row)
    ensures row in InRoom(rows, room) <==> row in rows && row.room == room
  {
    if rows != [] {
      InRoomMembers(rows[..|rows| - 1], room, row);
      SplitLast(rows);
    }
  }

  /** One append moves the public room by one commit of the replicated log, or not at all. */
  lemma AppendIsCommit(rows: seq<Row>, job: Job, w: Replica.World)
    requires Consistent(rows) && job.entry.id != NO_ID && w.log == InRoom(rows, PUBLIC)
    ensures InRoom(AppendOne(rows, job), PUBLIC) ==
            if Decide(rows, job).Stored? && job.room == PUBLIC
            then Replica.Commits(w, job.entry.id, job.entry.content).log else w.log
  {
    hide InRoom, MaxNum, UniqueIds, GapFree;
    if Decide(rows, job).Stored? {
      InRoomPush(rows, NewRow(rows, job), PUBLIC);
      MaxNumIsCount(rows, job.room);
      forall row | row in w.log ensures row.id != job.entry.id {
        InRoomMembers(rows, PUBLIC, row);
      }
    }
  }

  ghost predicate Named(jobs: seq<Job>) {
    forall k | 0 <= k < |jobs| :: jobs[k].entry.id != NO_ID
  }

  /** So a whole batch moves it by a run of commits. */
  lemma {:induction false} ApplyIsCommits(rows: seq<Row>, jobs: seq<Job>, w: Replica.World, c: Replica.Config)
    returns (events: seq<Replica.Event>)
    requires Consistent(rows) && Named(jobs) && w.log == InRoom(rows, PUBLIC)
    ensures forall e | e in events :: e.Commit?
    ensures Replica.Run(w, c, events) == w.(log := InRoom(Apply(rows, jobs).rows, PUBLIC))
  {
    hide InRoom, Decide, AppendOne, Replica.Step, Consistent;
    events := [];
    if jobs != [] {
      var front, job := jobs[..|jobs| - 1], jobs[|jobs| - 1];
      events := ApplyIsCommits(rows, front, w, c);
      ApplyKeepsConsistent(rows, front);
      var mid := Replica.Run(w, c, events);
      AppendIsCommit(Apply(rows, front).rows, job, mid);
      if Decide(Apply(rows, front).rows, job).Stored? && job.room == PUBLIC {
        var e := Replica.Commit(job.entry.id, job.entry.content);
        Replica.RunPush(w, c, events, e);
        CommitChangesLogOnly(mid, c, e);
        events := events + [e];
      }
    }
  }

  lemma CommitChangesLogOnly(w: Replica.World, c: Replica.Config, e: Replica.Event)
    requires e.Commit?
    ensures Replica.Step(w, c, e).log == Replica.Commits(w, e.id, e.content).log
    ensures Replica.Step(w, c, e) == w.(log := Replica.Step(w, c, e).log)
  {
  }

  lemma {:induction false} CommitsKeepInv(w: Replica.World, c: Replica.Config, events: seq<Replica.Event>)
    requires c.Valid() && Replica.Inv(w, c) && forall e | e in events :: e.Commit?
    ensures Replica.Inv(Replica.Run(w, c, events), c)
  {
    hide Replica.Inv, Replica.Step;
    if events != [] {
      var front, e := events[..|events| - 1], events[|events| - 1];
      assert e in events && forall x | x in front :: x in events;
      CommitsKeepInv(w, c, front);
      Replica.StepKeepsInv(Replica.Run(w, c, front), c, e);
    }
  }

  // ---- clients, backends, database and one replica ---------------------------

  datatype System = System(store: ExactlyOnce.World, replica: Replica.World)

  /** Rows enter the log only through the database. */
  datatype Event = AtStore(e: ExactlyOnce.Event) | AtReplica(r: Replica.Event)

  /** A message without an id is given one before it is sent on. */
  predicate Possible(e: Event) {
    match e
    case AtStore(x) => x.Post? ==> x.job.entry.id != NO_ID
    case AtReplica(x) => !x.Commit?
  }

  function Step(s: System, size: nat, c: Replica.Config, e: Event): System {
    match e
    case AtStore(x) =>
      var store := ExactlyOnce.Step(s.store, size, x);
      System(store, s.replica.(log := InRoom(store.rows, PUBLIC)))
    case AtReplica(x) => s.(replica := Replica.Step(s.replica, c, x))
  }

  function Run(s: System, size: nat, c: Replica.Config, events: seq<Event>): System {
    if events == [] then s else Step(Run(s, size, c, events[..|events| - 1]), size, c, events[|events| - 1])
  }

  /** Any table the database may start from, and a replica that has heard nothing. */
  function Fresh(rows: seq<Row>): System {
    System(ExactlyOnce.Fresh(rows), Replica.INIT.(log := InRoom(rows, PUBLIC)))
  }

  ghost predicate NamedCalls(calls: seq<ExactlyOnce.Call>) {
    forall k | 0 <= k < |calls| :: calls[k].job.entry.id != NO_ID
  }

  ghost predicate Inv(s: System, c: Replica.Config) {
    && ExactlyOnce.Inv(s.store)
    && Replica.Inv(s.replica, c)
    && NamedCalls(s.store.calls)
    && s.replica.log == InRoom(s.store.rows, PUBLIC)
  }

  ghost predicate Admissible(s: System, e: Event) {
    Possible(e) && (e.AtReplica? ==> Replica.Admissible(s.replica, e.r))
  }

  /** Whatever the store does, what the replica knew stays right about the longer log. */
  lemma StoreStepKeepsInv(s: System, size: nat, c: Replica.Config, x: ExactlyOnce.Event)
    requires c.Valid() && Inv(s, c) && Possible(AtStore(x))
    ensures Inv(Step(s, size, c, AtStore(x)), c)
  {
    hide Replica.Inv, InRoom, ExactlyOnce.Inv;
    ExactlyOnce.StepKeepsInv(s.store, size, x);
    StoreGrowsBy(s.store, size, x);
    if x.Commit? && x.commits && ExactlyOnce.Issued(s.store.calls, x.batch) {
      var jobs := ExactlyOnce.JobsOf(s.store.calls, x.batch);
      ConsistentStore(s.store);
      var commits := ApplyIsCommits(s.store.rows, jobs, s.replica, c);
      CommitsKeepInv(s.replica, c, commits);
    } else {
      assert s.replica.(log := s.replica.log) == s.replica;
    }
  }

  lemma ConsistentStore(w: ExactlyOnce.World)
    requires ExactlyOnce.Inv(w)
    ensures Consistent(w.rows)
  {
  }

  /** Only a commit changes the table, and only a client's request adds a call. */
  lemma StoreGrowsBy(w: ExactlyOnce.World, size: nat, x: ExactlyOnce.Event)
    requires NamedCalls(w.calls) && (x.Post? ==> x.job.entry.id != NO_ID)
    ensures var v := ExactlyOnce.Step(w, size, x);
            && NamedCalls(v.calls)
            && v.rows == if x.Commit? && x.commits && ExactlyOnce.Issued(w.calls, x.batch)
                         then Apply(w.rows, ExactlyOnce.JobsOf(w.calls, x.batch)).rows else w.rows
    ensures x.Commit? && x.commits && ExactlyOnce.Issued(w.calls, x.batch)
            ==> Named(ExactlyOnce.JobsOf(w.calls, x.batch))
  {
  }

  lemma StepKeepsInv(s: System, size: nat, c: Replica.Config, e: Event)
    requires c.Valid() && Inv(s, c) && Admissible(s, e)
    ensures Inv(Step(s, size, c, e), c)
  {
    hide Replica.Inv, InRoom, ExactlyOnce.Inv;
    match e
    case AtStore(x) => StoreStepKeepsInv(s, size, c, x);
    case AtReplica(x) =>
      Replica.StepKeepsInv(s.replica, c, x);
      LogKept(s.replica, c, x);
  }

  lemma LogKept(w: Replica.World, c: Replica.Config, x: Replica.Event)
    requires !x.Commit?
    ensures Replica.Step(w, c, x).log == w.log
  {
  }

  ghost predicate AdmissibleRun(s: System, size: nat, c: Replica.Config, events: seq<Event>) {
    events == []
    || (var front, e := events[..|events| - 1], events[|events| - 1];
        AdmissibleRun(s, size, c, front) && Admissible(Run(s, size, c, front), e))
  }

  lemma FreshInv(rows: seq<Row>, c: Replica.Config)
    requires Consistent(rows) && forall row | row in rows :: row.id != NO_ID
    ensures Inv(Fresh(rows), c)
  {
    var log := InRoom(rows, PUBLIC);
    forall k | 0 <= k < |log| ensures log[k].id != NO_ID {
      InRoomMembers(rows, PUBLIC, log[k]);
    }
    RoomHasUniqueIds(rows, PUBLIC);
    ExactlyOnce.InvInEveryRun(rows, 0, []);
  }

  lemma {:induction false} RoomHasUniqueIds(rows: seq<Row>, room: Room)
    requires UniqueIds(rows)
    ensures UniqueIds(InRoom(rows, room))
  {
    if rows != [] {
      var front, last := rows[..|rows| - 1], rows[|rows| - 1];
      RoomHasUniqueIds(front, room);
      var kept := InRoom(front, room);
      forall i | 0 <= i < |kept| ensures kept[i].id != last.id {
        InRoomMembers(front, room, kept[i]);
      }
    }
  }

  lemma {:induction false} InvInEveryRun(rows: seq<Row>, size: nat, c: Replica.Config, events: seq<Event>)
    requires c.Valid() && Consistent(rows) && forall row | row in rows :: row.id != NO_ID
    requires AdmissibleRun(Fresh(rows), size, c, events)
    ensures Inv(Run(Fresh(rows), size, c, events), c)
  {
    hide Inv, Step, Admissible, Fresh;
    if events == [] {
      FreshInv(rows, c);
    } else {
      var front := events[..|events| - 1];
      InvInEveryRun(rows, size, c, front);
      StepKeepsInv(Run(Fresh(rows), size, c, front), size, c, events[|events| - 1]);
    }
  }

  // ---- main results ----------------------------------------------------------

  /** At every moment of every run: a public message acknowledged to any client, through
      any backend, is in the replica once the replica's cursor has passed its number. */
  lemma AcknowledgedIsReplicated(rows: seq<Row>, size: nat, c: Replica.Config, events: seq<Event>, a: ExactlyOnce.Ack)
    requires c.Valid() && Consistent(rows) && forall row | row in rows :: row.id != NO_ID
    requires AdmissibleRun(Fresh(rows), size, c, events)
    requires a in Run(Fresh(rows), size, c, events).store.acks
    ensures var s := Run(Fresh(rows), size, c, events);
            var found := Find(s.store.rows, a.id);
            && found.Some? && found.value.num == a.num
            && (found.value.room == PUBLIC && s.replica.base < a.num <= s.replica.cursor
                ==> found.value in s.replica.feed.history)
  {
    hide Run, Fresh, Find;
    InvInEveryRun(rows, size, c, events);
    var s := Run(Fresh(rows), size, c, events);
    assert ExactlyOnce.Stands(s.store.rows, a.id, a.num);
    if Find(s.store.rows, a.id).value.room == PUBLIC {
      RowIsAtItsNumber(s.store.rows, Find(s.store.rows, a.id).value);
    }
  }

  /** A public row stands in the public room at its own number. */
  lemma RowIsAtItsNumber(rows: seq<Row>, row: Row)
    requires Consistent(rows) && row in rows && row.room == PUBLIC
    ensures 1 <= row.num <= |InRoom(rows, PUBLIC)| && InRoom(rows, PUBLIC)[row.num - 1] == row
  {
    InRoomMembers(rows, PUBLIC, row);
    var k :| 0 <= k < |InRoom(rows, PUBLIC)| && InRoom(rows, PUBLIC)[k] == row;
  }

  /** Once appends stop, enough successful polls bring every acknowledged public message
      past the initial window to the replica, whatever is lost meanwhile. */
  lemma AcknowledgedReachesReplica(rows: seq<Row>, size: nat, c: Replica.Config, events: seq<Event>,
                                   a: ExactlyOnce.Ack, noise: seq<seq<Replica.Event>>)
    requires c.Valid() && Consistent(rows) && forall row | row in rows :: row.id != NO_ID
    requires AdmissibleRun(Fresh(rows), size, c, events)
    requires a in Run(Fresh(rows), size, c, events).store.acks
    requires var w := Run(Fresh(rows), size, c, events).replica;
      w.ready && Replica.QuietRounds(w, c, noise) && |noise| * c.PollPage() >= |w.log| - w.cursor
    ensures var s := Run(Fresh(rows), size, c, events);
            var found, end := Find(s.store.rows, a.id), Replica.Rounds(s.replica, c, noise);
            && found.Some? && found.value.num == a.num
            && (found.value.room == PUBLIC && end.base < a.num ==> found.value in end.feed.history)
  {
    hide Run, Fresh, Find;
    InvInEveryRun(rows, size, c, events);
    var s := Run(Fresh(rows), size, c, events);
    assert ExactlyOnce.Stands(s.store.rows, a.id, a.num);
    Replica.Converges(s.replica, c, noise);
    if Find(s.store.rows, a.id).value.room == PUBLIC {
      RowIsAtItsNumber(s.store.rows, Find(s.store.rows, a.id).value);
    }
  }

  // ---- from one request to the replica ---------------------------------------

  function Told(s: System, size: nat, c: Replica.Config, backend: nat, job: Job): System {
    var asked := Step(s, size, c, AtStore(ExactlyOnce.Post(backend, job)));
    var committed := Step(asked, size, c, AtStore(ExactlyOnce.Commit([|s.store.calls|], true)));
    Step(committed, size, c, AtStore(ExactlyOnce.Deliver(|s.store.replies|)))
  }

  function Polled(s: System, size: nat, c: Replica.Config): System {
    var asked := Step(s, size, c, AtReplica(Replica.IssuePoll));
    var answered := Step(asked, size, c, AtReplica(Replica.Answer(|s.replica.asks|, 0)));
    Step(answered, size, c, AtReplica(Replica.Receive(|s.replica.replies|)))
  }

  /** A new public message posted through any backend is acknowledged under its number, and
      the very next poll of a replica that was up to date brings it there. */
  lemma PostedIsPolled(s: System, size: nat, c: Replica.Config, backend: nat, job: Job)
    requires c.Valid() && Inv(s, c) && s.replica.ready && s.replica.cursor == |s.replica.log|
    requires job.room == PUBLIC && job.entry.id != NO_ID && job.entry.storable && job.entry.loggable
    requires Find(s.store.rows, job.entry.id).None? && !ExactlyOnce.Knows(s.store, backend, job.entry.id)
    ensures var id := job.entry.id;
            var told := Told(s, size, c, backend, job);
            var end := Polled(told, size, c);
            && Find(told.store.rows, id).Some?
            && var row := Find(told.store.rows, id).value;
               && CarriedBy(row, job) && row.num == |s.replica.log| + 1
               && told.store.acks == s.store.acks + [ExactlyOnce.Ack(id, row.num, false)]
               && end.store == told.store && Inv(end, c)
               && end.replica.cursor == row.num && row in end.replica.feed.history
  {
    hide Replica.Inv, ExactlyOnce.Inv, ExactlyOnce.Step, Replica.Step, InRoom, Find, Consistent;
    var told := Told(s, size, c, backend, job);
    ToldKeepsInv(s, size, c, backend, job);
    ExactlyOnce.UndisturbedPostIsAnswered(s.store, size, backend, job);
    assert told.store == ExactlyOnce.Exchange(s.store, size, backend, job);
    var row := Find(told.store.rows, job.entry.id).value;
    ConsistentStore(s.store);
    OneMoreRow(s.store.rows, job);
    Replica.PollRoundAdvances(told.replica, c);
    PolledIsRound(told, size, c);
    WithinLog(s.replica, c);
    InHistory(Polled(told, size, c).replica, c, |s.replica.log|);
  }

  lemma OneMoreRow(rows: seq<Row>, job: Job)
    requires Consistent(rows) && Find(rows, job.entry.id).None? && job.room == PUBLIC && job.entry.storable
    ensures var n, after := |InRoom(rows, PUBLIC)|, AppendOne(rows, job);
            && |InRoom(after, PUBLIC)| == n + 1 && InRoom(after, PUBLIC)[n].num == n + 1
            && Find(after, job.entry.id) == Some(InRoom(after, PUBLIC)[n])
  {
    InRoomPush(rows, NewRow(rows, job), PUBLIC);
    MaxNumIsCount(rows, PUBLIC);
  }

  lemma PolledIsRound(s: System, size: nat, c: Replica.Config)
    requires c.Valid() && Inv(s, c) && s.replica.ready
    ensures var end := Polled(s, size, c);
            end.replica == Replica.PollRound(s.replica, c) && end.store == s.store
  {
    hide Inv, Replica.Step;
  }

  lemma InHistory(w: Replica.World, c: Replica.Config, k: nat)
    requires Replica.Inv(w, c) && w.base <= k < w.cursor
    ensures k < |w.log| && w.log[k] in w.feed.history && w.cursor <= |w.log|
  {
  }

  lemma WithinLog(w: Replica.World, c: Replica.Config)
    requires Replica.Inv(w, c)
    ensures w.base <= w.cursor <= |w.log|
  {
  }

  lemma ToldKeepsInv(s: System, size: nat, c: Replica.Config, backend: nat, job: Job)
    requires c.Valid() && Inv(s, c) && job.entry.id != NO_ID
    ensures var told := Told(s, size, c, backend, job);
            Inv(told, c) && told.replica == s.replica.(log := InRoom(told.store.rows, PUBLIC))
  {
    hide Inv, ExactlyOnce.Step;
    var asked := Step(s, size, c, AtStore(ExactlyOnce.Post(backend, job)));
    var committed := Step(asked, size, c, AtStore(ExactlyOnce.Commit([|s.store.calls|], true)));
    StepKeepsInv(s, size, c, AtStore(ExactlyOnce.Post(backend, job)));
    StepKeepsInv(asked, size, c, AtStore(ExactlyOnce.Commit([|s.store.calls|], true)));
    StepKeepsInv(committed, size, c, AtStore(ExactlyOnce.Deliver(|s.store.replies|)));
  }
}
