/**
 * The `messages` table of the database service and the append that guards it.
 *
 * Rows are kept in insertion order.  `AppendOne` is the idempotent append of
 * app/db_service.js:161-184; `Apply` folds it over a batch in arrival order.
 */
module MessageTable {
  import opened Common

  // Ids, rooms and the remaining columns are only ever compared for equality, so they are
  // opaque tokens here.
  type Id = nat
  type Room = nat
  type Content = nat

  /** The missing (empty) id. */
  const NO_ID: Id := 0

  /** The room that /message and /feed share. */
  const PUBLIC: Room := 0

  /** A message offered for storage.  SQLite may refuse to bind a column: `storable`
      says the insert binds, `loggable` that the audit row of a duplicate binds. */
  datatype Entry = Entry(id: Id, content: Content, storable: bool, loggable: bool)

  datatype Row = Row(id: Id, room: Room, num: nat, content: Content)

  datatype Job = Job(room: Room, entry: Entry)

  /** What one append reports: a new row, the row already stored, or an exception. */
  datatype Outcome = Stored(row: Row) | Duplicate(row: Row) | Failed

  datatype Applied = Applied(rows: seq<Row>, outcomes: seq<Outcome>)

  // ---- queries ---------------------------------------------------------------

  /** SELECT * FROM messages WHERE id = ? */
  function Find(rows: seq<Row>, id: Id): (r: Option<Row>)
    ensures r.Some? ==> r.value in rows && r.value.id == id
    ensures r.None? ==> forall row | row in rows :: row.id != id
  {
    if rows == [] then None
    else
      var last := rows[|rows| - 1];
      if last.id == id then Some(last) else Find(rows[..|rows| - 1], id)
  }

  /** The rows of one room, in insertion order. */
  function InRoom(rows: seq<Row>, room: Room): seq<Row> {
    if rows == [] then []
    else
      var last := rows[|rows| - 1];
      var front := InRoom(rows[..|rows| - 1], room);
      if last.room == room then front + [last] else front
  }

  /** SELECT COALESCE(MAX(seq), 0) FROM messages WHERE room = ? */
  function MaxNum(rows: seq<Row>, room: Room): nat {
    if rows == [] then 0
    else
      var last := rows[|rows| - 1];
      var front := MaxNum(rows[..|rows| - 1], room);
      if last.room == room && last.num > front then last.num else front
  }

  // ---- the table invariant ---------------------------------------------------

  /** PRIMARY KEY(id). */
  ghost predicate UniqueIds(rows: seq<Row>) {
    forall i, j :: 0 <= i < j < |rows| ==> rows[i].id != rows[j].id
  }

  /** Each room is numbered 1, 2, 3, ... in insertion order. */
  ghost predicate GapFree(rows: seq<Row>) {
    forall room: Room, k :: 0 <= k < |InRoom(rows, room)| ==> InRoom(rows, room)[k].num == k + 1
  }

  ghost predicate Consistent(rows: seq<Row>) {
    UniqueIds(rows) && GapFree(rows)
  }

  // ---- append ----------------------------------------------------------------

  function NewRow(rows: seq<Row>, job: Job): Row {
    Row(job.entry.id, job.room, MaxNum(rows, job.room) + 1, job.entry.content)
  }

  function Decide(rows: seq<Row>, job: Job): Outcome {
    match Find(rows, job.entry.id)
    case Some(row) => if job.entry.loggable then Duplicate(row) else Failed
    case None => if job.entry.storable then Stored(NewRow(rows, job)) else Failed
  }

  function AppendOne(rows: seq<Row>, job: Job): seq<Row> {
    match Decide(rows, job)
    case Stored(row) => rows + [row]
    case _ => rows
  }

  function Apply(rows: seq<Row>, jobs: seq<Job>): (a: Applied)
    ensures |a.outcomes| == |jobs|
  {
    if jobs == [] then Applied(rows, [])
    else
      var before := Apply(rows, jobs[..|jobs| - 1]);
      var job := jobs[|jobs| - 1];
      Applied(AppendOne(before.rows, job), before.outcomes + [Decide(before.rows, job)])
  }

  /** The rows a batch inserted, in order. */
  function Inserted(outcomes: seq<Outcome>): seq<Row> {
    if outcomes == [] then []
    else
      var front := Inserted(outcomes[..|outcomes| - 1]);
      match outcomes[|outcomes| - 1]
      case Stored(row) => front + [row]
      case _ => front
  }

  // ---- lemmas on queries -----------------------------------------------------

  lemma InRoomPush(rows: seq<Row>, row: Row, room: Room)
    ensures InRoom(rows + [row], room) == if row.room == room then InRoom(rows, room) + [row] else InRoom(rows, room)
  {
    assert (rows + [row])[..|rows|] == rows;
  }

  lemma InRoomConcatSnoc(a: seq<Row>, front: seq<Row>, last: Row, room: Room)
    requires InRoom(a + front, room) == InRoom(a, room) + InRoom(front, room)
    ensures InRoom(a + (front + [last]), room) == InRoom(a, room) + InRoom(front + [last], room)
  {
    assert a + (front + [last]) == (a + front) + [last];
    InRoomPush(a + front, last, room);
    InRoomPush(front, last, room);
  }

  lemma {:induction false} InRoomConcat(a: seq<Row>, b: seq<Row>, room: Room)
    ensures InRoom(a + b, room) == InRoom(a, room) + InRoom(b, room)
  {
    if b == [] {
      assert a + b == a;
    } else {
      var front, last := b[..|b| - 1], b[|b| - 1];
      InRoomConcat(a, front, room);
      InRoomConcatSnoc(a, front, last, room);
      assert b == front + [last];
    }
  }

  /** In a gap-free table the next number is one more than the room's row count. */
  lemma {:induction false} MaxNumIsCount(rows: seq<Row>, room: Room)
    requires GapFree(rows)
    ensures MaxNum(rows, room) == |InRoom(rows, room)|
  {
    if rows != [] {
      var front, last := rows[..|rows| - 1], rows[|rows| - 1];
      assert rows == front + [last];
      GapFreePrefix(front, last);
      MaxNumIsCount(front, room);
      if last.room == room {
        assert InRoom(rows, room)[|InRoom(front, room)|] == last;
      }
    }
  }

  /** For any numbering the table may have. */
  lemma {:induction false} MaxNumIsHighest(rows: seq<Row>, room: Room)
    ensures forall row | row in rows && row.room == room :: row.num <= MaxNum(rows, room)
    ensures MaxNum(rows, room) > 0 ==> exists row :: row in rows && row.room == room && row.num == MaxNum(rows, room)
  {
    if rows != [] {
      var front, last := rows[..|rows| - 1], rows[|rows| - 1];
      MaxNumIsHighest(front, room);
      SplitLast(rows);
      if MaxNum(rows, room) > 0 && MaxNum(rows, room) == MaxNum(front, room) {
        var row :| row in front && row.room == room && row.num == MaxNum(front, room);
        assert row in rows;
      }
    }
  }

  lemma GapFreePrefix(front: seq<Row>, last: Row)
    requires GapFree(front + [last])
    ensures GapFree(front)
  {
    forall room: Room, k | 0 <= k < |InRoom(front, room)|
      ensures InRoom(front, room)[k].num == k + 1
    {
      InRoomPush(front, last, room);
      assert InRoom(front + [last], room)[k] == InRoom(front, room)[k];
    }
  }

  /** With unique ids, looking a row up by its id returns that very row. */
  lemma {:induction false} FindReturns(rows: seq<Row>, row: Row)
    requires UniqueIds(rows) && row in rows
    ensures Find(rows, row.id) == Some(row)
  {
    var i :| 0 <= i < |rows| && rows[i] == row;
    if i < |rows| - 1 {
      FindReturns(rows[..|rows| - 1], row);
    }
  }

  /** Once stored, a row stays what a lookup returns, however the table grows. */
  lemma FindStable(rows: seq<Row>, later: seq<Row>, id: Id)
    requires rows <= later && UniqueIds(later) && Find(rows, id).Some?
    ensures Find(later, id) == Find(rows, id)
  {
    var row := Find(rows, id).value;
    assert row in later;
    FindReturns(later, row);
  }

  lemma ApplySnoc(rows: seq<Row>, jobs: seq<Job>, job: Job)
    ensures var before := Apply(rows, jobs);
            Apply(rows, jobs + [job])
            == Applied(AppendOne(before.rows, job), before.outcomes + [Decide(before.rows, job)])
  {
    assert (jobs + [job])[..|jobs|] == jobs;
  }

  lemma ApplyPush(rows: seq<Row>, jobs: seq<Job>, k: nat)
    requires k < |jobs|
    ensures var before := Apply(rows, jobs[..k]);
            Apply(rows, jobs[..k + 1])
            == Applied(AppendOne(before.rows, jobs[k]), before.outcomes + [Decide(before.rows, jobs[k])])
  {
    assert jobs[..k + 1][..k] == jobs[..k];
  }

  // ---- main results ----------------------------------------------------------

  lemma AppendOneKeepsConsistent(rows: seq<Row>, job: Job)
    requires Consistent(rows)
    ensures Consistent(AppendOne(rows, job))
  {
    if Decide(rows, job).Stored? {
      var row := NewRow(rows, job);
      MaxNumIsCount(rows, job.room);
      forall room: Room, k | 0 <= k < |InRoom(rows + [row], room)|
        ensures InRoom(rows + [row], room)[k].num == k + 1
      {
        InRoomPush(rows, row, room);
      }
    }
  }

  /** Every batch keeps ids unique and every room numbered 1..n without a gap. */
  lemma {:induction false} ApplyKeepsConsistent(rows: seq<Row>, jobs: seq<Job>)
    requires Consistent(rows)
    ensures Consistent(Apply(rows, jobs).rows)
  {
    if jobs != [] {
      ApplyKeepsConsistent(rows, jobs[..|jobs| - 1]);
      AppendOneKeepsConsistent(Apply(rows, jobs[..|jobs| - 1]).rows, jobs[|jobs| - 1]);
    }
  }

  /** Batch boundaries are invisible: a batch gives the table and the answers that
      its two halves give when committed one after the other. */
  lemma {:induction false} ApplySplits(rows: seq<Row>, a: seq<Job>, b: seq<Job>)
    ensures Splits(rows, a, b)
  {
    if b == [] {
      assert a + b == a;
    } else {
      var front, job := b[..|b| - 1], b[|b| - 1];
      ApplySplits(rows, a, front);
      SplitSnoc(rows, a, front, job);
      assert b == front + [job];
    }
  }

  /** The two halves `a` and `b` of a batch, committed separately, give what `a + b` does. */
  ghost predicate Splits(rows: seq<Row>, a: seq<Job>, b: seq<Job>) {
    var whole, first := Apply(rows, a + b), Apply(rows, a);
    var second := Apply(first.rows, b);
    whole.rows == second.rows && whole.outcomes == first.outcomes + second.outcomes
  }

  lemma SplitSnoc(rows: seq<Row>, a: seq<Job>, front: seq<Job>, job: Job)
    requires Splits(rows, a, front)
    ensures Splits(rows, a, front + [job])
  {
    hide Apply, AppendOne, Decide;
    assert a + (front + [job]) == (a + front) + [job];
    ApplySnoc(rows, a + front, job);
    ApplySnoc(Apply(rows, a).rows, front, job);
  }

  /** Committing a list of batches, each in its own transaction. */
  function ApplyBatches(rows: seq<Row>, batches: seq<seq<Job>>): Applied {
    if batches == [] then Applied(rows, [])
    else
      var before := ApplyBatches(rows, batches[..|batches| - 1]);
      var last := Apply(before.rows, batches[|batches| - 1]);
      Applied(last.rows, before.outcomes + last.outcomes)
  }

  function Flatten(batches: seq<seq<Job>>): seq<Job> {
    if batches == [] then [] else Flatten(batches[..|batches| - 1]) + batches[|batches| - 1]
  }

  /** Group commit refines one-at-a-time commit: however the arrival order is cut into
      transactions, the table and every answer are those of the uncut stream. */
  lemma {:induction false} GroupCommitRefines(rows: seq<Row>, batches: seq<seq<Job>>)
    ensures ApplyBatches(rows, batches) == Apply(rows, Flatten(batches))
  {
    if batches != [] {
      var front, last := batches[..|batches| - 1], batches[|batches| - 1];
      GroupCommitRefines(rows, front);
      ApplySplits(rows, Flatten(front), last);
    }
  }

  /** The ids present after a batch: those before it and those of its storable jobs. */
  lemma {:induction false} ApplyIds(rows: seq<Row>, jobs: seq<Job>, id: Id)
    ensures Find(Apply(rows, jobs).rows, id).Some? <==>
              (exists row | row in rows :: row.id == id)
              || (exists j | 0 <= j < |jobs| :: jobs[j].entry.id == id && jobs[j].entry.storable)
  {
    if jobs != [] {
      var n := |jobs| - 1;
      ApplyIds(rows, jobs[..n], id);
      var before := Apply(rows, jobs[..n]).rows;
      var after := Apply(rows, jobs).rows;
      assert after == AppendOne(before, jobs[n]);
      assert Find(after, id).Some? <==>
        Find(before, id).Some? || (jobs[n].entry.id == id && jobs[n].entry.storable) by {
        if Decide(before, jobs[n]).Stored? {
          assert after[..|after| - 1] == before;
        }
      }
      assert forall j | 0 <= j < n :: jobs[..n][j] == jobs[j];
    }
  }

  /** Each job is decided against the table its predecessors left. */
  lemma OutcomeAt(rows: seq<Row>, jobs: seq<Job>, i: nat)
    requires i < |jobs|
    ensures Apply(rows, jobs).outcomes[i] == Decide(Apply(rows, jobs[..i]).rows, jobs[i])
    ensures Apply(rows, jobs[..i + 1]).rows <= Apply(rows, jobs).rows
  {
    var upTo := jobs[..i + 1];
    assert jobs == upTo + jobs[i + 1..];
    ApplySplits(rows, upTo, jobs[i + 1..]);
    ApplyAppendsInserted(Apply(rows, upTo).rows, jobs[i + 1..]);
    assert upTo[..i] == jobs[..i];
  }

  /** The id of job `i` was in the table before the batch, or an earlier job could put it there. */
  ghost predicate IdTaken(rows: seq<Row>, jobs: seq<Job>, i: nat)
    requires i < |jobs|
  {
    || (exists row | row in rows :: row.id == jobs[i].entry.id)
    || (exists j | 0 <= j < i :: jobs[j].entry.id == jobs[i].entry.id && jobs[j].entry.storable)
  }

  /** Which answer each job of a batch gets, said without running the batch: a retry is a
      duplicate and never an error as long as its audit row binds, a new message is stored
      as long as it binds. */
  lemma AnsweredExactly(rows: seq<Row>, jobs: seq<Job>, i: nat)
    requires i < |jobs|
    ensures var o, e := Apply(rows, jobs).outcomes[i], jobs[i].entry;
            && (o.Stored? <==> !IdTaken(rows, jobs, i) && e.storable)
            && (o.Duplicate? <==> IdTaken(rows, jobs, i) && e.loggable)
            && (o.Failed? <==> if IdTaken(rows, jobs, i) then !e.loggable else !e.storable)
  {
    var before, id := jobs[..i], jobs[i].entry.id;
    OutcomeAt(rows, jobs, i);
    ApplyIds(rows, before, id);
    assert forall j | 0 <= j < i :: before[j] == jobs[j];
  }

  /** Every answer that names a row names the one row the final table holds for the
      job's id, and a stored row carries the job. */
  lemma AnswersAgreeWithTable(rows: seq<Row>, jobs: seq<Job>, i: nat)
    requires Consistent(rows) && i < |jobs|
    ensures var o := Apply(rows, jobs).outcomes[i];
            && (o.Failed? || Find(Apply(rows, jobs).rows, jobs[i].entry.id) == Some(o.row))
            && (o.Stored? ==> CarriedBy(o.row, jobs[i]))
  {
    OutcomeAt(rows, jobs, i);
    ApplyKeepsConsistent(rows, jobs);
    var before := Apply(rows, jobs[..i]).rows;
    var o := Decide(before, jobs[i]);
    if !o.Failed? {
      assert jobs[..i + 1][..i] == jobs[..i];
      assert o.row in AppendOne(before, jobs[i]);
      FindReturns(Apply(rows, jobs).rows, o.row);
    }
  }

  predicate CarriedBy(row: Row, job: Job) {
    row.id == job.entry.id && row.room == job.room && row.content == job.entry.content
  }

  /** A batch invents nothing: each row was there before or carries one of its jobs. */
  lemma {:induction false} RowsComeFromJobs(rows: seq<Row>, jobs: seq<Job>, row: Row)
    requires row in Apply(rows, jobs).rows
    ensures row in rows || exists j :: 0 <= j < |jobs| && CarriedBy(row, jobs[j])
  {
    if jobs != [] {
      var n := |jobs| - 1;
      if row in Apply(rows, jobs[..n]).rows {
        RowsComeFromJobs(rows, jobs[..n], row);
        if row !in rows {
          var j :| 0 <= j < n && CarriedBy(row, jobs[..n][j]);
          assert jobs[..n][j] == jobs[j];
        }
      } else {
        assert CarriedBy(row, jobs[n]);
      }
    }
  }

  /** A batch inserts exactly the rows its answers report as stored, in order. */
  lemma {:induction false} ApplyAppendsInserted(rows: seq<Row>, jobs: seq<Job>)
    ensures Apply(rows, jobs).rows == rows + Inserted(Apply(rows, jobs).outcomes)
  {
    if jobs != [] {
      var a, before := Apply(rows, jobs), Apply(rows, jobs[..|jobs| - 1]);
      ApplyAppendsInserted(rows, jobs[..|jobs| - 1]);
      assert a.outcomes[..|jobs| - 1] == before.outcomes;
    }
  }

  lemma SuffixNumbers(rows: seq<Row>, room: Room, front: seq<Row>, back: seq<Row>)
    requires GapFree(rows) && InRoom(rows, room) == front + back
    ensures forall k | 0 <= k < |back| :: back[k].num == |front| + k + 1
  {
    forall k | 0 <= k < |back|
      ensures back[k].num == |front| + k + 1
    {
      assert InRoom(rows, room)[|front| + k] == back[k];
    }
  }

  /** Per room, the inserted rows continue the old numbering without a gap: they are
      exactly what the room gained, numbered from its old row count plus one. */
  lemma InsertedIsContiguous(rows: seq<Row>, jobs: seq<Job>, room: Room)
    requires Consistent(rows)
    ensures var gained := InRoom(Inserted(Apply(rows, jobs).outcomes), room);
            && InRoom(Apply(rows, jobs).rows, room) == InRoom(rows, room) + gained
            && forall k | 0 <= k < |gained| :: gained[k].num == |InRoom(rows, room)| + k + 1
  {
    ApplyAppendsInserted(rows, jobs);
    InRoomConcat(rows, Inserted(Apply(rows, jobs).outcomes), room);
    ApplyKeepsConsistent(rows, jobs);
    SuffixNumbers(Apply(rows, jobs).rows, room, InRoom(rows, room), InRoom(Inserted(Apply(rows, jobs).outcomes), room));
  }
}
