/**
 * The three caches the database service keeps beside its table: a row count per
 * room, the total row count, and whole-room snapshots bounded to 32 entries
 * (app/db_service.js:138-152, 180-182, 442-448).
 */
module DbCaches {
  import opened Common
  import opened MessageTable

  const SNAPSHOT_MAX := 32

  /** A serialised /feed body; a fresh one holds exactly the room's rows. */
  datatype Snapshot = Snapshot(room: Room, body: seq<Row>)

  /** `snapshots` is a JavaScript Map: oldest key first. */
  datatype Caches = Caches(roomCount: map<Room, nat>, totalRows: nat, snapshots: seq<Snapshot>)

  datatype Db = Db(rows: seq<Row>, caches: Caches)

  datatype Event =
    | Flush(jobs: seq<Job>, commits: bool)
    | CountRoom(room: Room)
    | ReadRoom(room: Room)

  // ---- the operations on the caches ------------------------------------------

  function DropRoom(snapshots: seq<Snapshot>, room: Room): seq<Snapshot> {
    if snapshots == [] then []
    else
      var front := DropRoom(snapshots[..|snapshots| - 1], room);
      var last := snapshots[|snapshots| - 1];
      if last.room == room then front else front + [last]
  }

  function Lookup(snapshots: seq<Snapshot>, room: Room): (r: Option<Snapshot>)
    ensures r.Some? ==> r.value in snapshots && r.value.room == room
    ensures r.None? ==> forall s | s in snapshots :: s.room != room
  {
    if snapshots == [] then None
    else
      var last := snapshots[|snapshots| - 1];
      if last.room == room then Some(last) else Lookup(snapshots[..|snapshots| - 1], room)
  }

  /** What one inserted row does to the caches. */
  function Note(c: Caches, row: Row): Caches {
    Caches(
      if row.room in c.roomCount then c.roomCount[row.room := c.roomCount[row.room] + 1] else c.roomCount,
      c.totalRows + 1,
      DropRoom(c.snapshots, row.room))
  }

  function NoteAll(c: Caches, rows: seq<Row>): Caches {
    if rows == [] then c else Note(NoteAll(c, rows[..|rows| - 1]), rows[|rows| - 1])
  }

  function CountOf(db: Db, room: Room): Db {
    if room in db.caches.roomCount then db
    else db.(caches := db.caches.(roomCount := db.caches.roomCount[room := |InRoom(db.rows, room)|]))
  }

  function Remember(snapshots: seq<Snapshot>, s: Snapshot): seq<Snapshot> {
    var more := snapshots + [s];
    if |more| > SNAPSHOT_MAX then more[1..] else more
  }

  function SnapshotOf(db: Db, room: Room): Db {
    match Lookup(db.caches.snapshots, room)
    case Some(_) => db
    case None => db.(caches := db.caches.(snapshots := Remember(db.caches.snapshots, Snapshot(room, InRoom(db.rows, room)))))
  }

  function Step(db: Db, e: Event): Db {
    match e
    case Flush(jobs, commits) =>
      var a := Apply(db.rows, jobs);
      Db(if commits then a.rows else db.rows, NoteAll(db.caches, Inserted(a.outcomes)))
    case CountRoom(room) => CountOf(db, room)
    case ReadRoom(room) => SnapshotOf(CountOf(db, room), room)
  }

  function Run(db: Db, events: seq<Event>): Db {
    if events == [] then db else Step(Run(db, events[..|events| - 1]), events[|events| - 1])
  }

  // ---- agreement with the table ----------------------------------------------

  ghost predicate SnapshotsFresh(snapshots: seq<Snapshot>, rows: seq<Row>) {
    && |snapshots| <= SNAPSHOT_MAX
    && (forall i, j :: 0 <= i < j < |snapshots| ==> snapshots[i].room != snapshots[j].room)
    && (forall s | s in snapshots :: s.body == InRoom(rows, s.room))
  }

  ghost predicate Agree(c: Caches, rows: seq<Row>) {
    && (forall room | room in c.roomCount :: c.roomCount[room] == |InRoom(rows, room)|)
    && c.totalRows == |rows|
    && SnapshotsFresh(c.snapshots, rows)
  }

  lemma {:induction false} DropRoomMembers(snapshots: seq<Snapshot>, room: Room)
    ensures forall s :: s in DropRoom(snapshots, room) <==> s in snapshots && s.room != room
    ensures |DropRoom(snapshots, room)| <= |snapshots|
  {
    if snapshots != [] {
      DropRoomMembers(snapshots[..|snapshots| - 1], room);
      assert snapshots == snapshots[..|snapshots| - 1] + [snapshots[|snapshots| - 1]];
    }
  }

  lemma {:induction false} DropRoomKeepsKeysDistinct(snapshots: seq<Snapshot>, room: Room)
    requires forall i, j :: 0 <= i < j < |snapshots| ==> snapshots[i].room != snapshots[j].room
    ensures var d := DropRoom(snapshots, room);
            forall i, j :: 0 <= i < j < |d| ==> d[i].room != d[j].room
  {
    if snapshots != [] {
      var front, last := snapshots[..|snapshots| - 1], snapshots[|snapshots| - 1];
      DropRoomKeepsKeysDistinct(front, room);
      DropRoomMembers(front, room);
      var d := DropRoom(front, room);
      forall i | 0 <= i < |d| ensures d[i].room != last.room {
        assert d[i] in front;
      }
    }
  }

  /** Invalidation leaves the other rooms' snapshots in the order they were taken. */
  lemma {:induction false} DropRoomKeepsOrder(snapshots: seq<Snapshot>, room: Room) returns (at: seq<nat>)
    ensures PickedAt(DropRoom(snapshots, room), snapshots, at)
  {
    at := [];
    if snapshots != [] {
      var front, last := snapshots[..|snapshots| - 1], snapshots[|snapshots| - 1];
      at := DropRoomKeepsOrder(front, room);
      PickedSnoc(DropRoom(front, room), front, at, last);
      SplitLast(snapshots);
      if last.room != room {
        at := at + [|front|];
      }
    }
  }

  /** Invalidation keeps the snapshots fresh whether or not the row survives. */
  lemma NoteKeepsSnapshotsFresh(c: Caches, rows: seq<Row>, row: Row)
    requires SnapshotsFresh(c.snapshots, rows)
    ensures SnapshotsFresh(Note(c, row).snapshots, rows)
    ensures SnapshotsFresh(Note(c, row).snapshots, rows + [row])
  {
    DropRoomMembers(c.snapshots, row.room);
    DropRoomKeepsKeysDistinct(c.snapshots, row.room);
    forall s | s in Note(c, row).snapshots
      ensures s.body == InRoom(rows, s.room) == InRoom(rows + [row], s.room)
    {
      InRoomPush(rows, row, s.room);
    }
  }

  /** The counters run ahead of a table by exactly the rows noted but not in it. */
  lemma {:induction false} NoteAllCounts(c: Caches, more: seq<Row>)
    ensures NoteAll(c, more).totalRows == c.totalRows + |more|
    ensures NoteAll(c, more).roomCount.Keys == c.roomCount.Keys
    ensures forall room | room in c.roomCount ::
              NoteAll(c, more).roomCount[room] == c.roomCount[room] + |InRoom(more, room)|
  {
    if more != [] {
      NoteAllCounts(c, more[..|more| - 1]);
    }
  }

  lemma {:induction false} NoteAllSnapshots(c: Caches, rows: seq<Row>, more: seq<Row>)
    requires SnapshotsFresh(c.snapshots, rows)
    ensures SnapshotsFresh(NoteAll(c, more).snapshots, rows)
    ensures SnapshotsFresh(NoteAll(c, more).snapshots, rows + more)
  {
    if more == [] {
      assert rows + more == rows;
    } else {
      var front, last := more[..|more| - 1], more[|more| - 1];
      NoteAllSnapshots(c, rows, front);
      NoteKeepsSnapshotsFresh(NoteAll(c, front), rows, last);
      NoteKeepsSnapshotsFresh(NoteAll(c, front), rows + front, last);
      assert rows + more == (rows + front) + [last];
    }
  }

  /** A room without new rows stays cached. */
  lemma {:induction false} OthersStayCached(c: Caches, more: seq<Row>, s: Snapshot)
    requires s in c.snapshots && forall row | row in more :: row.room != s.room
    ensures s in NoteAll(c, more).snapshots
  {
    if more != [] {
      var front, last := more[..|more| - 1], more[|more| - 1];
      assert last in more && forall row | row in front :: row in more;
      OthersStayCached(c, front, s);
      DropRoomMembers(NoteAll(c, front).snapshots, last.room);
    }
  }

  lemma CommittedFlushAgrees(db: Db, jobs: seq<Job>)
    requires Agree(db.caches, db.rows)
    ensures Agree(Step(db, Flush(jobs, true)).caches, Step(db, Flush(jobs, true)).rows)
  {
    var more := Inserted(Apply(db.rows, jobs).outcomes);
    ApplyAppendsInserted(db.rows, jobs);
    NoteAllCounts(db.caches, more);
    NoteAllSnapshots(db.caches, db.rows, more);
    forall room | room in db.caches.roomCount
      ensures |InRoom(db.rows + more, room)| == |InRoom(db.rows, room)| + |InRoom(more, room)|
    {
      InRoomConcat(db.rows, more, room);
    }
  }

  /** What reading a room relies on, also after a failed COMMIT: no room is counted short
      and every snapshot is a fresh rendering. */
  ghost predicate Usable(c: Caches, rows: seq<Row>) {
    && (forall room | room in c.roomCount :: c.roomCount[room] >= |InRoom(rows, room)|)
    && SnapshotsFresh(c.snapshots, rows)
  }

  /** A group commit keeps the caches usable whether or not its COMMIT succeeds. */
  lemma FlushKeepsUsable(db: Db, jobs: seq<Job>, commits: bool)
    requires Usable(db.caches, db.rows)
    ensures var after := Step(db, Flush(jobs, commits)); Usable(after.caches, after.rows)
  {
    hide InRoom, SnapshotsFresh, NoteAll, Inserted, Apply;
    var more := Inserted(Apply(db.rows, jobs).outcomes);
    ApplyAppendsInserted(db.rows, jobs);
    NoteAllCounts(db.caches, more);
    NoteAllSnapshots(db.caches, db.rows, more);
    forall room | room in db.caches.roomCount
      ensures |InRoom(db.rows + more, room)| == |InRoom(db.rows, room)| + |InRoom(more, room)|
    {
      InRoomConcat(db.rows, more, room);
    }
  }

  lemma ReadsKeepSnapshotsFresh(db: Db, room: Room)
    requires SnapshotsFresh(db.caches.snapshots, db.rows)
    ensures SnapshotsFresh(SnapshotOf(db, room).caches.snapshots, db.rows)
  {
    var was, now := db.caches.snapshots, SnapshotOf(db, room).caches.snapshots;
    if Lookup(was, room).None? {
      var more := was + [Snapshot(room, InRoom(db.rows, room))];
      forall i, j | 0 <= i < j < |more| ensures more[i].room != more[j].room {
        assert more[i] in was;
      }
      assert forall s | s in now :: s in more;
    }
  }

  /** Counting a room once is enough: it is then in the cache, is not counted again, and no
      other room is touched. */
  lemma CountedOnce(db: Db, room: Room)
    ensures var after := Step(db, CountRoom(room));
            && room in after.caches.roomCount && Step(after, CountRoom(room)) == after
            && (room in db.caches.roomCount ==> after == db)
            && (room !in db.caches.roomCount ==> after.caches.roomCount[room] == |InRoom(db.rows, room)|)
            && (forall r | r != room :: r in after.caches.roomCount <==> r in db.caches.roomCount)
            && after == db.(caches := db.caches.(roomCount := after.caches.roomCount))
  {
  }

  lemma JustRemembered(snapshots: seq<Snapshot>, s: Snapshot)
    requires |snapshots| <= SNAPSHOT_MAX
    ensures Remember(snapshots, s) == LastN(snapshots + [s], 32) && Lookup(Remember(snapshots, s), s.room) == Some(s)
  {
  }

  /** Reading a room leaves its rendering in the cache, where the next read finds it; it is
      the newest of at most 32, and the oldest makes room for it. */
  lemma ReadIsCached(db: Db, room: Room)
    requires SnapshotsFresh(db.caches.snapshots, db.rows)
    ensures var was, after := db.caches.snapshots, Step(db, ReadRoom(room));
            && Lookup(after.caches.snapshots, room) == Some(Snapshot(room, InRoom(db.rows, room)))
            && Step(after, ReadRoom(room)) == after
            && after.rows == db.rows && after.caches.roomCount == Step(db, CountRoom(room)).caches.roomCount
            && after.caches.snapshots == if Lookup(was, room).Some? then was
                                         else LastN(was + [Snapshot(room, InRoom(db.rows, room))], 32)
  {
    hide InRoom, Remember, Lookup, SNAPSHOT_MAX;
    JustRemembered(db.caches.snapshots, Snapshot(room, InRoom(db.rows, room)));
  }

  // ---- over whole runs -------------------------------------------------------

  /** Rows that were inserted by a transaction whose COMMIT then failed. */
  function RolledBack(db: Db, events: seq<Event>): nat {
    if events == [] then 0
    else
      var front, e := events[..|events| - 1], events[|events| - 1];
      RolledBack(db, front)
      + if e.Flush? && !e.commits then |Inserted(Apply(Run(db, front).rows, e.jobs).outcomes)| else 0
  }

  /** In every run: the table stays consistent, every snapshot is a fresh rendering,
      and the total runs ahead of the table by exactly the rows rolled back. */
  lemma {:induction false} CachesOverRuns(db: Db, events: seq<Event>)
    requires Consistent(db.rows) && Agree(db.caches, db.rows)
    ensures var end := Run(db, events);
            && Consistent(end.rows)
            && SnapshotsFresh(end.caches.snapshots, end.rows)
            && end.caches.totalRows == |end.rows| + RolledBack(db, events)
    ensures RolledBack(db, events) == 0 ==> Agree(Run(db, events).caches, Run(db, events).rows)
  {
    if events != [] {
      var front, e := events[..|events| - 1], events[|events| - 1];
      CachesOverRuns(db, front);
      var mid := Run(db, front);
      match e
      case Flush(jobs, commits) =>
        var more := Inserted(Apply(mid.rows, jobs).outcomes);
        ApplyKeepsConsistent(mid.rows, jobs);
        ApplyAppendsInserted(mid.rows, jobs);
        NoteAllCounts(mid.caches, more);
        NoteAllSnapshots(mid.caches, mid.rows, more);
        if RolledBack(db, events) == 0 && commits {
          CommittedFlushAgrees(mid, jobs);
        }
      case CountRoom(room) =>
      case ReadRoom(room) =>
        ReadsKeepSnapshotsFresh(CountOf(mid, room), room);
    }
  }

  /** In every run, failed COMMITs included, the caches stay fit to answer reads from. */
  lemma {:induction false} UsableInEveryRun(db: Db, events: seq<Event>)
    requires Usable(db.caches, db.rows)
    ensures Usable(Run(db, events).caches, Run(db, events).rows)
  {
    hide SnapshotsFresh, InRoom;
    if events != [] {
      var front, e := events[..|events| - 1], events[|events| - 1];
      UsableInEveryRun(db, front);
      var mid := Run(db, front);
      match e
      case Flush(jobs, commits) => FlushKeepsUsable(mid, jobs, commits);
      case CountRoom(room) =>
      case ReadRoom(room) => ReadsKeepSnapshotsFresh(CountOf(mid, room), room);
    }
  }

  /** The caches agree with the table after a run exactly when no failed COMMIT took
      a row back. */
  lemma CachesAgreeExactly(db: Db, events: seq<Event>)
    requires Consistent(db.rows) && Agree(db.caches, db.rows)
    ensures Agree(Run(db, events).caches, Run(db, events).rows) <==> RolledBack(db, events) == 0
  {
    CachesOverRuns(db, events);
  }

  /** One failed COMMIT of one new message leaves the total one too high for good. */
  lemma FailedCommitWitness()
    ensures var db := Db([], Caches(map[], 0, []));
            var job := Job(PUBLIC, Entry(1, 7, true, true));
            var end := Run(db, [Flush([job], false)]);
            Consistent(db.rows) && Agree(db.caches, db.rows) && end.rows == [] && end.caches.totalRows == 1
  {
    var db := Db([], Caches(map[], 0, []));
    var job := Job(PUBLIC, Entry(1, 7, true, true));
    assert Apply([], [job][..0]) == Applied([], []);
    assert Apply([], [job]).outcomes == [Stored(Row(1, PUBLIC, 1, 7))];
    assert Inserted([Stored(Row(1, PUBLIC, 1, 7))][..0]) == [];
    assert Run(db, [Flush([job], false)][..0]) == db;
    NoteAllCounts(db.caches, Inserted(Apply([], [job]).outcomes));
  }
}
