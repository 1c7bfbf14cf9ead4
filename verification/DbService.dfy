/**
 * The database service as it runs: one object whose fields the append path updates
 * in place (app/db_service.js:138-252, 404-450).  Every method is proved against the
 * specification functions of `MessageTable` and `DbCaches`.
 */
module DbService {
  import opened Common
  import opened MessageTable
  import opened DbCaches

  /** What a queued append is told once its transaction is over. */
  datatype Answer = Resolved(outcome: Outcome) | Rejected

  /** One firehose frame: a single message, or the batch a transaction stored in a room. */
  datatype Frame = Msg(room: Room, entry: Row) | Batch(room: Room, entries: seq<Row>) {
    function Rows(): seq<Row> {
      match this
      case Msg(_, entry) => [entry]
      case Batch(_, entries) => entries
    }
  }

  function ToAnswer(o: Outcome): Answer {
    if o.Failed? then Rejected else Resolved(o)
  }

  /** What the caller of job `i` has to be told once the batch has committed and left the
      table `after`: a retry of a stored message resolves with that message's row. */
  ghost predicate Answered(rows: seq<Row>, jobs: seq<Job>, after: seq<Row>, i: nat, a: Answer)
    requires i < |jobs|
  {
    var e := jobs[i].entry;
    match a
    case Resolved(Stored(row)) =>
      !IdTaken(rows, jobs, i) && e.storable && Find(after, e.id) == Some(row) && CarriedBy(row, jobs[i])
    case Resolved(Duplicate(row)) => IdTaken(rows, jobs, i) && e.loggable && Find(after, e.id) == Some(row)
    case Resolved(Failed) => false
    case Rejected => if IdTaken(rows, jobs, i) then !e.loggable else !e.storable
  }

  lemma AllAnswered(rows: seq<Row>, jobs: seq<Job>, answers: seq<Answer>)
    requires Consistent(rows) && |answers| == |jobs|
    requires forall i | 0 <= i < |jobs| :: answers[i] == ToAnswer(Apply(rows, jobs).outcomes[i])
    ensures forall i | 0 <= i < |jobs| :: Answered(rows, jobs, Apply(rows, jobs).rows, i, answers[i])
  {
    hide Apply, Consistent, IdTaken, Find, CarriedBy;
    forall i | 0 <= i < |jobs| ensures Answered(rows, jobs, Apply(rows, jobs).rows, i, answers[i]) {
      AnsweredExactly(rows, jobs, i);
      AnswersAgreeWithTable(rows, jobs, i);
    }
  }

  /** The audit rows a batch writes: one id for each duplicate it reports. */
  function DuplicateIds(outcomes: seq<Outcome>): seq<Id> {
    if outcomes == [] then []
    else
      var front := DuplicateIds(outcomes[..|outcomes| - 1]);
      match outcomes[|outcomes| - 1]
      case Duplicate(row) => front + [row.id]
      case _ => front
  }

  /** The answers that call this id a duplicate. */
  function DuplicatesOf(outcomes: seq<Outcome>, id: Id): set<nat> {
    set i | 0 <= i < |outcomes| && outcomes[i].Duplicate? && outcomes[i].row.id == id
  }

  lemma DuplicatesOfSnoc(front: seq<Outcome>, o: Outcome, id: Id)
    ensures |DuplicatesOf(front + [o], id)|
            == |DuplicatesOf(front, id)| + if o.Duplicate? && o.row.id == id then 1 else 0
  {
    var was, now := DuplicatesOf(front, id), DuplicatesOf(front + [o], id);
    if o.Duplicate? && o.row.id == id {
      assert now == was + {|front|};
    } else {
      assert now == was;
    }
  }

  /** The audit log gains one row for each answer that calls an id a duplicate. */
  lemma {:induction false} DuplicatesLogged(outcomes: seq<Outcome>, id: Id)
    ensures multiset(DuplicateIds(outcomes))[id] == |DuplicatesOf(outcomes, id)|
  {
    if outcomes != [] {
      hide DuplicatesOf;
      var n := |outcomes| - 1;
      DuplicatesLogged(outcomes[..n], id);
      DuplicatesOfSnoc(outcomes[..n], outcomes[n], id);
      SplitLast(outcomes);
    }
  }

  /** Exactly one frame for each room that gained rows, holding all of them in order. */
  ghost predicate FramesCover(frames: seq<Frame>, gained: seq<Row>) {
    && (forall i, j :: 0 <= i < j < |frames| ==> frames[i].room != frames[j].room)
    && (forall f | f in frames :: f.Rows() == InRoom(gained, f.room) && f.Rows() != [])
    && (forall f | f in frames :: f.Batch? ==> |f.entries| > 1)
    && (forall row | row in gained :: exists f :: f in frames && f.room == row.room)
  }

  lemma OutcomeSnoc(out: seq<Outcome>, o: Outcome, c: Caches)
    ensures Inserted(out + [o]) == Inserted(out) + if o.Stored? then [o.row] else []
    ensures DuplicateIds(out + [o]) == DuplicateIds(out) + if o.Duplicate? then [o.row.id] else []
    ensures NoteAll(c, Inserted(out + [o])) ==
            if o.Stored? then Note(NoteAll(c, Inserted(out)), o.row) else NoteAll(c, Inserted(out))
  {
    hide Note;
    assert (out + [o])[..|out|] == out;
    if o.Stored? {
      assert (Inserted(out) + [o.row])[..|Inserted(out)|] == Inserted(out);
    }
  }

  lemma NothingYet(rows: seq<Row>, c: Caches)
    ensures Apply(rows, []) == Applied(rows, []) && NoteAll(c, Inserted([])) == c && DuplicateIds([]) == []
    ensures FramesCover([], Inserted([]))
  {
  }

  lemma DecidesById(rows: seq<Row>, job: Job)
    ensures var o := Decide(rows, job);
      && (o.Duplicate? ==> o.row.id == job.entry.id)
      && AppendOne(rows, job) == (if o.Stored? then rows + [o.row] else rows)
  {
    hide NewRow;
  }

  class Service {
    var rows: seq<Row>
    var dupLog: seq<Id>
    var roomCount: map<Room, nat>
    var totalRows: nat
    var snapshots: seq<Snapshot>
    var pending: seq<Job>
    var flushScheduled: bool

    function View(): Db
      reads this
    {
      Db(rows, Caches(roomCount, totalRows, snapshots))
    }

    /** The caches agree with a consistent table, and a waiting append has its flush. */
    ghost predicate Valid()
      reads this
    {
      && Consistent(rows)
      && Agree(View().caches, rows)
      && (pending != [] ==> flushScheduled)
    }

    /** The caches are fit to answer reads from, as they are even after a failed COMMIT. */
    ghost predicate Readable()
      reads this
    {
      Usable(View().caches, rows)
    }

    /** Boot over an existing table: the total is counted once, the rest is lazy. */
    constructor (table: seq<Row>)
      requires Consistent(table)
      ensures Valid() && Readable()
      ensures View() == Db(table, Caches(map[], |table|, [])) && pending == [] && dupLog == []
    {
      rows, dupLog, roomCount, totalRows, snapshots := table, [], map[], |table|, [];
      pending, flushScheduled := [], false;
    }

    /** INSERT ... ON CONFLICT(id) DO NOTHING. */
    method Insert(row: Row) returns (changes: nat)
      modifies this`rows
      ensures Find(old(rows), row.id).Some? ==> changes == 0 && rows == old(rows)
      ensures Find(old(rows), row.id).None? ==> changes == 1 && rows == old(rows) + [row]
    {
      if Find(rows, row.id).Some? {
        return 0;
      }
      rows := rows + [row];
      changes := 1;
    }

    /** One entry inside the open transaction. */
    method AppendOne(job: Job) returns (outcome: Outcome)
      modifies this`rows, this`dupLog, this`roomCount, this`totalRows, this`snapshots
      ensures outcome == Decide(old(rows), job)
      ensures outcome.Stored? ==> rows == old(rows) + [outcome.row]
                                  && View().caches == Note(old(View().caches), outcome.row)
      ensures !outcome.Stored? ==> View() == old(View())
      ensures dupLog == old(dupLog) + if outcome.Duplicate? then [job.entry.id] else []
    {
      var existing := Find(rows, job.entry.id);
      if existing.Some? {
        if !job.entry.loggable {
          return Failed;
        }
        dupLog := dupLog + [job.entry.id];
        return Duplicate(existing.value);
      }
      var num := MaxNum(rows, job.room) + 1;
      if !job.entry.storable {
        return Failed;
      }
      var row := Row(job.entry.id, job.room, num, job.entry.content);
      var changes := Insert(row);
      if changes == 0 {
        assert false;
      }
      snapshots := DropRoom(snapshots, job.room);
      if job.room in roomCount {
        roomCount := roomCount[job.room := roomCount[job.room] + 1];
      }
      totalRows := totalRows + 1;
      outcome := Stored(row);
    }

    /** Queue an append; the first one since the last flush schedules the next. */
    method AppendTx(job: Job)
      requires Valid()
      modifies this`pending, this`flushScheduled
      ensures Valid() && pending == old(pending) + [job] && flushScheduled
    {
      pending := pending + [job];
      if !flushScheduled {
        flushScheduled := true;
      }
    }

    /** The body of the transaction: every queued entry in turn, a failing one skipped. */
    method ApplyBatch(batch: seq<Job>) returns (out: seq<Outcome>)
      modifies this`rows, this`dupLog, this`roomCount, this`totalRows, this`snapshots
      ensures rows == Apply(old(rows), batch).rows
      ensures out == Apply(old(rows), batch).outcomes
      ensures View().caches == NoteAll(old(View().caches), Inserted(out))
      ensures dupLog == old(dupLog) + DuplicateIds(out)
    {
      hide Decide, Note, Apply, Inserted, DuplicateIds, NoteAll;
      out := [];
      NothingYet(rows, View().caches);
      for k := 0 to |batch|
        invariant rows == Apply(old(rows), batch[..k]).rows
        invariant out == Apply(old(rows), batch[..k]).outcomes
        invariant View().caches == NoteAll(old(View().caches), Inserted(out))
        invariant dupLog == old(dupLog) + DuplicateIds(out)
      {
        ghost var before := rows;
        var o := AppendOne(batch[k]);
        ApplyPush(old(rows), batch, k);
        DecidesById(before, batch[k]);
        OutcomeSnoc(out, o, old(View().caches));
        out := out + [o];
      }
      assert batch[..|batch|] == batch;
    }

    /** The group commit.  `commits` says whether COMMIT succeeds. */
    method FlushAppends(commits: bool) returns (answers: seq<Answer>, frames: seq<Frame>)
      requires Consistent(rows)
      modifies this
      ensures pending == [] && !flushScheduled
      ensures View() == DbCaches.Step(old(View()), Flush(old(pending), commits))
      ensures |answers| == |old(pending)|
      ensures var outcomes := Apply(old(rows), old(pending)).outcomes;
              if commits then
                && (forall i | 0 <= i < |answers| :: answers[i] == ToAnswer(outcomes[i]))
                && (forall i | 0 <= i < |answers| :: Answered(old(rows), old(pending), rows, i, answers[i]))
                && FramesCover(frames, Inserted(outcomes))
                && dupLog == old(dupLog) + DuplicateIds(outcomes)
              else
                && (forall a | a in answers :: a == Rejected)
                && frames == [] && dupLog == old(dupLog)
      ensures Consistent(rows)
      ensures commits && old(Valid()) ==> Valid()
      ensures old(Readable()) ==> Readable()
    {
      hide Consistent, Agree, Usable, FramesCover, DuplicateIds, Apply, NoteAll, Inserted, Answered;
      ghost var was, jobs := View(), pending;
      ApplyKeepsConsistent(rows, pending);
      if Readable() {
        FlushKeepsUsable(was, pending, commits);
      }
      if Agree(was.caches, rows) {
        CommittedFlushAgrees(was, pending);
      }
      flushScheduled := false;
      var batch := pending;
      pending := [];
      answers, frames := [], [];
      NothingYet(rows, was.caches);
      if batch == [] {
        return;
      }
      var savedRows, savedLog := rows, dupLog;
      var out := ApplyBatch(batch);
      if commits {
        frames := Broadcast(out);
        answers := seq(|out|, i requires 0 <= i < |out| => ToAnswer(out[i]));
        AllAnswered(was.rows, jobs, answers);
      } else {
        rows, dupLog := savedRows, savedLog;
        answers := seq(|batch|, _ => Rejected);
      }
      assert View().rows == DbCaches.Step(was, Flush(jobs, commits)).rows;
      assert View().caches == DbCaches.Step(was, Flush(jobs, commits)).caches;
    }

    /** The number of rows in a room, read once and then maintained: never too low, and
        exact while no COMMIT has failed. */
    method CountOf(room: Room) returns (n: nat)
      requires Readable()
      modifies this`roomCount
      ensures Readable() && n >= |InRoom(rows, room)|
      ensures old(Valid()) ==> Valid() && n == |InRoom(rows, room)|
      ensures View() == DbCaches.CountOf(old(View()), room) && room in roomCount && n == roomCount[room]
    {
      hide InRoom, Consistent;
      if room !in roomCount {
        roomCount := roomCount[room := |InRoom(rows, room)|];
      }
      n := roomCount[room];
    }

    /** GET /feed without `since` or `limit`: the whole room from the snapshot cache, or
        the newest `pageMax` rows when the room is larger than one body may be. */
    method ReadRoom(room: Room, pageMax: nat) returns (body: seq<Row>)
      requires Readable()
      modifies this`roomCount, this`snapshots
      ensures Readable() && rows == old(rows)
      ensures old(Valid()) ==> Valid()
      ensures body == LastN(InRoom(rows, room), pageMax)
      ensures var counted := DbCaches.CountOf(old(View()), room);
              View() == if counted.caches.roomCount[room] > pageMax then counted
                        else DbCaches.Step(old(View()), DbCaches.ReadRoom(room))
    {
      hide InRoom, Consistent;
      var total := CountOf(room);
      if total > pageMax {
        return LastN(InRoom(rows, room), pageMax);
      }
      ReadsKeepSnapshotsFresh(View(), room);
      ghost var counted := View();
      var hit := Lookup(snapshots, room);
      if hit.None? {
        body := InRoom(rows, room);
        snapshots := snapshots + [Snapshot(room, body)];
        if |snapshots| > SNAPSHOT_MAX {
          snapshots := snapshots[1..];
        }
      } else {
        body := hit.value.body;
      }
      assert View() == SnapshotOf(counted, room);
    }
  }

  /** Each frame of a committed batch is the block its room gained: what the room holds
      afterwards is what it held before followed by the frame, numbered on from there,
      and a room without a frame gained nothing. */
  lemma FramesAreContiguousBlocks(rows: seq<Row>, jobs: seq<Job>, frames: seq<Frame>, room: Room)
    requires Consistent(rows) && FramesCover(frames, Inserted(Apply(rows, jobs).outcomes))
    ensures forall f | f in frames && f.room == room ::
              && InRoom(Apply(rows, jobs).rows, room) == InRoom(rows, room) + f.Rows()
              && forall k | 0 <= k < |f.Rows()| :: f.Rows()[k].num == |InRoom(rows, room)| + k + 1
    ensures (forall f | f in frames :: f.room != room) ==>
              InRoom(Apply(rows, jobs).rows, room) == InRoom(rows, room)
  {
    InsertedIsContiguous(rows, jobs, room);
    if forall f | f in frames :: f.room != room {
      InRoomAbsent(Inserted(Apply(rows, jobs).outcomes), room);
    }
  }

  // ---- one frame per room ----------------------------------------------------

  /** The JavaScript Map from room to new rows, in order of first insertion. */
  ghost predicate Grouped(order: seq<Room>, groups: map<Room, seq<Row>>, gained: seq<Row>) {
    && Distinct(order)
    && (forall room :: room in order <==> room in groups)
    && (forall room | room in groups :: groups[room] == InRoom(gained, room) && groups[room] != [])
    && (forall row | row in gained :: row.room in groups)
  }

  lemma {:induction false} InRoomAbsent(rows: seq<Row>, room: Room)
    requires forall row | row in rows :: row.room != room
    ensures InRoom(rows, room) == []
  {
    if rows != [] {
      InRoomAbsent(rows[..|rows| - 1], room);
    }
  }

  lemma GroupedPushKnown(order: seq<Room>, groups: map<Room, seq<Row>>, gained: seq<Row>, row: Row)
    requires Grouped(order, groups, gained) && row.room in groups
    ensures Grouped(order, groups[row.room := groups[row.room] + [row]], gained + [row])
  {
    forall room { InRoomPush(gained, row, room); }
  }

  lemma GroupedPushNew(order: seq<Room>, groups: map<Room, seq<Row>>, gained: seq<Row>, row: Row)
    requires Grouped(order, groups, gained) && row.room !in groups
    ensures Grouped(order + [row.room], groups[row.room := [row]], gained + [row])
  {
    InRoomAbsent(gained, row.room);
    var now := groups[row.room := [row]];
    forall room | room in now
      ensures now[room] == InRoom(gained + [row], room) && now[room] != []
    {
      InRoomPush(gained, row, room);
    }
  }

  method GroupByRoom(out: seq<Outcome>) returns (order: seq<Room>, groups: map<Room, seq<Row>>)
    ensures Grouped(order, groups, Inserted(out))
  {
    order, groups := [], map[];
    for k := 0 to |out|
      invariant Grouped(order, groups, Inserted(out[..k]))
    {
      assert out[..k + 1][..k] == out[..k];
      if out[k].Stored? {
        var row := out[k].row;
        if row.room in groups {
          GroupedPushKnown(order, groups, Inserted(out[..k]), row);
          groups := groups[row.room := groups[row.room] + [row]];
        } else {
          GroupedPushNew(order, groups, Inserted(out[..k]), row);
          order, groups := order + [row.room], groups[row.room := [row]];
        }
      }
    }
    assert out[..|out|] == out;
  }

  method Broadcast(out: seq<Outcome>) returns (frames: seq<Frame>)
    ensures FramesCover(frames, Inserted(out))
  {
    var order, groups := GroupByRoom(out);
    frames := [];
    for k := 0 to |order|
      invariant |frames| == k
      invariant forall i :: 0 <= i < k ==> frames[i].room == order[i] && frames[i].Rows() == groups[order[i]]
      invariant forall i :: 0 <= i < k ==> frames[i].Batch? ==> |frames[i].entries| > 1
    {
      var entries := groups[order[k]];
      frames := frames + [if |entries| == 1 then Msg(order[k], entries[0]) else Batch(order[k], entries)];
    }
    forall row | row in Inserted(out)
      ensures exists f :: f in frames && f.room == row.room
    {
      var i :| 0 <= i < |order| && order[i] == row.room;
      assert frames[i] in frames;
    }
  }
}
