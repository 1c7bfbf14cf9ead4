# Verified model of the chat cluster

The system is a small chat cluster: a load balancer (`lb/loadbalancer.py`), backends
(`app/server.js`) and one database service (`app/db_service.js`).  This project models its three
stateful cores in Dafny and proves what they are for.

1. **The exactly-once message log and its replicas.**  The database applies queued appends as one
   transaction, guards them by message id and numbers each room 1, 2, 3, ...  Backends coalesce
   appends, remember stored ids in a bounded list, and rebuild the public room from firehose frames
   that may be lost, repeated or reordered and from polls whose cursors may be stale.  The room is
   kept as one growing byte buffer with an offset table.
2. **Admission and dispatch in the balancer.**  A first-in-first-out gate with resizing and
   cancellation, smooth weighted round robin, the health state machine, the connect-retry loop with
   its slot and in-flight accounting, and the decoder for chunked request bodies (section 7.1 of
   RFC 9112).
3. **The generation-counted feed cache**, whose files are keyed by `id(body)`.

Each protocol is a state machine: a value type for the state, an `Event` type with every step the
code can take (including the network's and the allocator's), a `Step` function and a `Run` over any
list of events.  Theorems quantify over all runs.  Code that updates state in place is also written
as a class with the source's fields and methods, and every method is proved to do what `Step` (or a
specification function) says, so the theorems carry over to it.

| file | what it holds |
|---|---|
| `MessageTable`, `DbCaches`, `DbService` | the table and its append, the three caches beside it, the service object |
| `FeedPaging` | forward paging through a room that keeps growing |
| `FeedModel`, `FeedBytes`, `FeedBuffer` | the replica's views of one accepted history, comma-joined rows, the byte buffer itself |
| `Replica` | the replication protocol: log, firehose, polls, loads, catch-up |
| `Tracking` | how the cursor follows the frames, and what a replica shows while its rows arrive in order |
| `DedupLru`, `ExactlyOnce` | the bounded id list; clients, backends and database together |
| `EndToEnd` | `ExactlyOnce` and `Replica` joined: from a client's request to a backend's copy of the room |
| `Coalescer` | the append queue of a backend and the batch route |
| `AdmissionGate`, `Bulkhead` | the gate as a state machine and as the running object |
| `SmoothWrr`, `Health`, `BackendPool` | choosing and judging backends |
| `Dispatch`, `Seating`, `DispatchRuns`, `Journeys` | all connections with both gates; who sits at a gate; what holds over every run; what becomes of one request |
| `Serving` | one admitted request against the pool and the gates as objects |
| `Generations`, `FeedCache` | the feed cache as a state machine and as the running object |
| `Chunked`, `SizeField`, `ChunkGrammar` | chunked bodies; which sizes are read; which accepted input is chunked coding |

## What turned out not to hold

Where an obvious property is false of the code, the model keeps the code, exhibits the run and
proves exactly when the property does hold.

* Catching up after a reconnect asks for rows after the newest number held but advances the poll
  cursor, so an open gap is jumped (`Replica.CatchUpCanLoseARow`).  Receiving a reply keeps the
  cursor safe if and only if no gap lies between the cursor and the reply
  (`Replica.ReplyKeepsSafeExactly`, over runs `Replica.CursorSafetyExactly`); asking only while the newest number is the cursor is enough for
  whole runs (`Replica.GuardedCatchUpIsSafe`).  The comments in `app/server.js:497-507` and 549-554
  promise more than the code keeps.
* A failed COMMIT rolls the table back but not the counters; the caches agree with the table if and
  only if no rolled-back transaction had inserted a row (`DbCaches.CachesAgreeExactly`).  Reads of a
  room stay right even then (`DbCaches.UsableInEveryRun`, `DbService.Service.ReadRoom`).
* Jobs of other rooms that a flush looks at are put behind the rest of the queue, so messages of one
  room can overtake each other (`Coalescer.FlushCanReorder`); a room keeps its order exactly when it is
  the one sent or has no jobs on both sides of the cut (`Coalescer.RoomOrderExactly`).
* A waiter cancelled before a wake-up and unwinding after it gives back a slot it never had, so two
  requests can be inside a gate of one (`AdmissionGate.LateUnwindOverAdmits`) and two in flight on
  a count of one (`DispatchRuns.InFlightCanExceedHeld`).  The count is exact throughout a run if and
  only if every cancel handler in it found its future still queued (`AdmissionGate.CountExactly`);
  the bounds that hold in every run, and those of such clean runs, are
  `DispatchRuns.InFlightWithinAdmission` and `DispatchRuns.InFlightWithinHeld`.
* The round robin stays balanced if and only if no weight is negative and the weights sum to at
  least one (`SmoothWrr.BalancedExactly`); with a total that is not negative, a negative weight
  drifts without limit (`SmoothWrr.NegativeWeightDrifts`).
* "A dead backend returns only after enough good probes" fails when it deregisters and registers
  again (`Health.ReregistrationSkipsProbes`); a backend comes back exactly by those probes or by
  registering while it drains (`Health.ReadmittedExactly`).  "The pool never loses its last routable
  member" fails exactly when that member deregisters (`Health.EmptiedExactly`).
* The two bytes after each chunk are read but not checked (`Chunked.DelimiterUnchecked`), chunk
  sizes the grammar of section 7.1 of RFC 9112 rules out are read (exactly which:
  `SizeField.SizeReadExactly`), and
  extensions and trailers are not looked at, so input that is not chunked coding is accepted
  (`ChunkGrammar.PrefixedZeroAccepted`, `ChunkGrammar.WrongDelimiterAccepted`,
  `ChunkGrammar.ExtensionsUnchecked`).  What is accepted is derived by that grammar if and only if
  its lines are the grammar's and its delimiters CRLF (`ChunkGrammar.DerivedExactly`), and in any
  case leaves the next request untouched (`Chunked.NextRequestUntouched`).
* The docstring of `take` (`lb/loadbalancer.py:641-658`) says a reader over budget is sent to a
  backend; the code hands it a generation already in memory, and so does the model: a reader that
  takes the encoding always gets a body while there is one (`FeedCache.FeedCache.TakeBody`).

## Model

| member | source | states |
|---|---|---|
| `MessageTable.Find` | app/db_service.js:111 | a lookup by id returns a stored row carrying that id, or nothing when no row carries it |
| `MessageTable.MaxNumIsCount` | app/db_service.js:107 | in a gap-free table the highest number of a room is its row count, so the next append is numbered one past it |
| `MessageTable.MaxNumIsHighest` | app/db_service.js:107 | in any table it is the highest number in the room, or zero |
| `MessageTable.FindStable` | app/db_service.js:161-166 | once an id is stored, a lookup returns that same row however the table grows |
| `MessageTable.AppendOneKeepsConsistent` | app/db_service.js:161-184 | one append, whatever becomes of it, keeps ids unique and every room numbered 1..n |
| `MessageTable.ApplyKeepsConsistent` | app/db_service.js:200-213 | so does every batch, with repeated ids and failing rows in it |
| `MessageTable.ApplySplits` | app/db_service.js:186-196 | a batch gives the table and the answers its two halves give when committed one after the other |
| `MessageTable.GroupCommitRefines` | app/db_service.js:186-242 | however the arrival order is cut into transactions, the table and every answer are those of one-at-a-time commit |
| `MessageTable.ApplyIds` | app/db_service.js:161-184 | the ids after a batch are those before it and those of its storable entries |
| `MessageTable.AnsweredExactly` | app/db_service.js:161-184 | what each entry of a batch is answered, said without running it: "stored" if and only if its id is in neither the table nor an earlier storable entry and it binds, "duplicate" if and only if its id is and the audit row binds, an error otherwise |
| `MessageTable.OutcomeAt` | app/db_service.js:206-212 | every entry is decided against the table its predecessors left |
| `MessageTable.AnswersAgreeWithTable` | app/db_service.js:161-184 | every answer naming a row names the one row the final table holds for that id, and a stored row carries the id, room and content of its entry |
| `MessageTable.RowsComeFromJobs` | app/db_service.js:168-175 | a batch invents nothing: each row was there before or carries the id, room and content of one of its entries |
| `MessageTable.ApplyAppendsInserted` | app/db_service.js:161-213 | the table grows by exactly the rows the answers report as stored, in order |
| `MessageTable.InsertedIsContiguous` | app/db_service.js:107-114 | per room the inserted rows are exactly what the room gained, numbered on from its old count without a gap |
| `DbCaches.NoteAllCounts` | app/db_service.js:180-182 | the maintained counters rise by exactly the rows noted, per room and in all, and no room is added to or dropped from the count cache |
| `DbCaches.NoteAllSnapshots` | app/db_service.js:180 | invalidating inside a batch leaves every remaining snapshot fresh, whether or not the rows survive |
| `DbCaches.OthersStayCached` | app/db_service.js:180 | a room that gains no row keeps its snapshot |
| `DbCaches.CommittedFlushAgrees` | app/db_service.js:200-242 | a committed batch keeps all three caches in agreement with the table |
| `DbCaches.ReadsKeepSnapshotsFresh` | app/db_service.js:442-448 | caching one more room, with the oldest of 32 evicted, keeps every snapshot a fresh rendering under distinct keys |
| `DbCaches.CountedOnce` | app/db_service.js:142-146 | counting a room leaves its row count in the cache, where it is not counted again, and touches no other room |
| `DbCaches.ReadIsCached` | app/db_service.js:442-448 | a read leaves the rendering of the room in the cache as the newest of at most 32, and the next read finds it there |
| `DbCaches.DropRoomKeepsOrder` | app/db_service.js:180 | invalidation leaves the other snapshots in the order they were taken, so eviction still takes the oldest |
| `DbCaches.CachesOverRuns` | app/db_service.js:138-152 | over every run the table stays consistent, snapshots stay fresh, and the total runs ahead of the table by exactly the rows rolled back |
| `DbCaches.CachesAgreeExactly` | app/db_service.js:214-219 | the caches agree with the table after a run if and only if no failed COMMIT took a row back |
| `DbCaches.FlushKeepsUsable` | app/db_service.js:180-219 | a group commit never leaves a room counted short or a snapshot stale, whether or not its COMMIT succeeds |
| `DbCaches.UsableInEveryRun` | app/db_service.js:138-152 | so in every run, failed COMMITs included, the caches stay fit to answer reads from |
| `DbCaches.FailedCommitWitness` | app/db_service.js:214-219 | one failed COMMIT of one new message leaves the total at 1 over an empty table |
| `DbService.Service.constructor` | app/db_service.js:138-152 | boot over a consistent table counts it once and starts with empty caches and queue |
| `DbService.Service.Insert` | app/db_service.js:108-110 | inserting reports no change and leaves the table alone if the id is present, else adds the row |
| `DbService.Service.AppendOne` | app/db_service.js:161-184 | one entry is answered as the batch theorem says and updates table, caches and duplicate log accordingly and nothing else |
| `DbService.Service.AppendTx` | app/db_service.js:244-252 | an append joins the end of the queue and a flush is scheduled |
| `DbService.Service.ApplyBatch` | app/db_service.js:206-212 | the transaction body leaves the table, answers, caches and duplicate log of the fold over the batch |
| `DbService.Service.FlushAppends` | app/db_service.js:200-242 | the group commit: a retry of a stored message resolves with that message's row as a duplicate, a new message with its new row, and an error goes exactly to those that do not bind; one frame per room that gained rows; if COMMIT fails all are rejected, nothing is broadcast and the table is as before |
| `DbService.DuplicatesLogged` | app/db_service.js:164 | the audit log gains one row for each answer that calls an id a duplicate |
| `DbService.Service.CountOf` | app/db_service.js:142-146 | the count of a room is never below its rows in the table, and equal to them while no COMMIT has failed |
| `DbService.Service.ReadRoom` | app/db_service.js:432-450 | the whole-room answer is the room as the table holds it now, cut to the newest page when it is too large, whether or not it came from the cache and also after a failed COMMIT; it is cached exactly when the room fits |
| `DbService.GroupByRoom` | app/db_service.js:228-233 | grouping stored rows by room: each room once, with all its new rows in order |
| `DbService.Broadcast` | app/db_service.js:228-237 | exactly one frame per room that gained rows, holding all of them in order, as a batch frame only when there is more than one |
| `DbService.FramesAreContiguousBlocks` | app/db_service.js:222-237 | each frame is the contiguous numbered block its room gained, and a room without a frame gained nothing |
| `FeedPaging.PageSize` | app/db_service.js:411 | a page size inside the limits is granted as asked, any other is clamped into 1..maximum |
| `FeedPaging.AfterIsDrop` | app/db_service.js:114 | in a gap-free room the rows after number N are the room without its first N rows |
| `FeedPaging.PageIsBlock` | app/db_service.js:404-416 | a page is the block of the room that starts at the cursor, empty when the cursor is past the end, and a next cursor is given if and only if the page is full |
| `FeedPaging.WalkIsComplete` | app/db_service.js:404-416 | following `next_since` while others append yields the room's rows after the start, each once and in order, up to the last row at the final page |
| `FeedPaging.FullHistory` | app/db_service.js:398-416 | from cursor 0 the reader gets rows 1..M exactly once, in order, M being the room's last number at the final page, whatever page size it asks for |
| `FeedPaging.StaticRoomEnds` | app/db_service.js:404-416 | on a room of n rows that no longer grows, paging ends after exactly floor((n - since)/P) + 1 pages |
| `FeedModel.AcceptKeepsGood` | app/server.js:533-547 | accepting or dropping one row keeps every relation between history, id set, row count, newest number and total |
| `FeedModel.GoodInEveryRun` | app/server.js:487-547 | in every run the id set is a suffix of the accepted ids of length between min(H, max) and 2*max, the buffer shows between min(H, max) and max + max/16 of the newest rows and never more than the reported total |
| `FeedModel.RedeliveryDropped` | app/server.js:533-546 | re-delivery of any of the newest max rows changes nothing |
| `FeedModel.NewestDistinct` | app/server.js:533-546 | the newest max rows shown have pairwise distinct ids |
| `FeedModel.AcceptReaches` | app/server.js:533-547 | offering a row removes nothing from the history, adds at most that row, and afterwards its id has been accepted |
| `FeedModel.TrimsInBlocks` | app/server.js:533-547 | a new row is shown behind the others, and only when a whole block is over are the rows cut to the newest max; likewise the guarded ids |
| `FeedModel.ArrivalReaches` | app/server.js:510-617 | every row of a frame or reply ends up accepted; new rows count towards the total, a poll raises it to what the database reports, a load sets it to that or to the rows shown |
| `FeedBytes.JoinPush` | app/server.js:533-540 | writing a row after a comma extends the join and records where the row starts |
| `FeedBytes.JoinSplit` | app/server.js:411-413 | the join of rows splits at any row boundary into two joins and one comma |
| `FeedBytes.JoinFrom` | app/server.js:411-413 | what lies from a row's offset on is the join of the rows from there, with no leading comma |
| `FeedBytes.TrimMatches` | app/server.js:487-495 | cutting the bytes at an offset and shifting the offsets leaves the join and the offsets of the remaining rows |
| `FeedBytes.JoinShrinks` | app/server.js:411-422 | a shorter suffix of rows never takes more bytes, which is what the bisection relies on |
| `FeedBuffer.LiveFeed.constructor` | app/server.js:375-389 | a new feed is empty, not ready and laid out |
| `FeedBuffer.WriteAt` | app/server.js:533-540 | copying a row into the buffer leaves the bytes before it and appends it |
| `FeedBuffer.MoveDown` | app/server.js:490-491 | the overlapping copy moves the tail of the used bytes to the front intact |
| `FeedBuffer.LiveFeed.FeedGrow` | app/server.js:391-398 | growing makes room for the bytes needed and keeps the bytes in use |
| `FeedBuffer.LiveFeed.FeedTrim` | app/server.js:487-495 | trimming keeps min(count, max) newest rows and the buffer remains their comma-join with right offsets |
| `FeedBuffer.LiveFeed.PushRow` | app/server.js:535-540 | the buffer becomes the join of one more row |
| `FeedBuffer.LiveFeed.NoteRow` | app/server.js:541-545 | the row's id is guarded, the oldest ids dropped past twice the maximum, newest number and total updated |
| `FeedBuffer.LiveFeed.AppendNew` | app/server.js:535-547 | a row not guarded is taken as the specification says, byte for byte |
| `FeedBuffer.LiveFeed.FeedAppend` | app/server.js:533-547 | offering any row moves the feed by the specification step and keeps bytes and offsets right |
| `FeedBuffer.LiveFeed.FeedWindow` | app/server.js:414-422 | the window is the comma-join of the longest suffix of rows that fits the byte limit, or of the last row alone, with its row count |
| `FeedBuffer.FirstFitting` | app/server.js:416-420 | the bisection finds the first row whose suffix fits, or the last row when none does |
| `FeedBuffer.LiveFeed.OnFirehoseEntry` | app/server.js:609-617 | a frame is offered to the feed and moves the poll cursor only when it is the very next number |
| `FeedBuffer.LiveFeed.TakeRows` | app/server.js:514-517 | rows of a reply are offered in order and the cursor ends at the highest number seen, never moving back |
| `FeedBuffer.LiveFeed.FeedPollReturn` | app/server.js:510-519 | a poll reply moves feed, total and cursor by the specification step |
| `FeedBuffer.LiveFeed.FeedLoadReturn` | app/server.js:555-568 | a load reply does too, resets the total to at least the rows shown, and marks the feed ready |
| `Replica.ReplyEffect` | app/server.js:514-517 | a reply adds exactly its rows to the accepted ones and moves the cursor to its end if that is further |
| `Replica.ReplyTotals` | app/server.js:519-566 | so the total after a poll is at least the room's row count, and after a load exactly that or the rows shown |
| `Replica.TailIsNewest` | app/db_service.js:417-431 | the initial window is the newest rows of the room as of some moment, all of them or as many as the feed holds |
| `Replica.FirstLoad` | app/server.js:555-568 | the first load makes the replica ready, with the newest rows of the moment it was answered all accepted and the cursor at their end |
| `Replica.ReplyKeepsSafeExactly` | app/server.js:555-565 | receiving a reply keeps "every committed row up to the cursor was accepted" if and only if no gap lies between cursor and reply |
| `Replica.ReceiveKeepsInv` | app/server.js:510-527 | receiving a reply that opens no gap keeps the whole invariant, with any number of other requests in flight |
| `Replica.FrameKeepsInv` | app/server.js:609-617 | a frame of any committed row, late or repeated, keeps it |
| `Replica.CommitKeepsInv` | app/db_service.js:161-184 | further commits keep it: stale questions and answers stay valid |
| `Replica.StepKeepsInv` | app/server.js:510-617 | every step of the protocol keeps the invariant |
| `Replica.CatchUpAsks` | app/server.js:555-560 | on a reconnect a replica that holds nothing asks for the newest rows, any other for those after the highest number it holds |
| `Replica.MessagesMove` | app/server.js:510-583 | a question is answered once, an answer received once, and either may be lost |
| `Replica.CursorSafety` | app/server.js:510-617 | in every run of commits, lost, repeated and reordered frames, the initial load and any outstanding polls, with catch-up replies that open no gap, every committed row with base < number <= cursor was accepted |
| `Replica.CursorSafetyExactly` | app/server.js:555-565 | the cursor is safe at every moment of a run if and only if no catch-up reply in it opened a gap when it arrived |
| `Replica.GuardKept` | app/server.js:555-560 | if catch-up is only asked for while the newest number is the cursor, every outstanding question and answer starts at or before the cursor |
| `Replica.GuardedIsAdmissible` | app/server.js:555-560 | so under that guard no reply that arrives opens a gap |
| `Replica.GuardedCatchUpIsSafe` | app/server.js:555-566 | under that guard cursor safety holds in every run, however late the answers come |
| `Replica.CursorMovesForward` | app/server.js:515-517 | no step moves the cursor back or drops an accepted row |
| `Replica.PollAdvances` | app/server.js:510-519 | a poll asked at c and answered in full moves the cursor to at least min(c + page, N) |
| `Replica.PollRoundAdvances` | app/server.js:510-527 | asking, answering and receiving one poll does so from any state the invariant allows, whatever else is outstanding |
| `Replica.RoundsAdvance` | app/server.js:510-531 | k such rounds bring the cursor to at least min(cursor + k*page, N), with any traffic but appends between them, reconnects that catch up included, as long as no catch-up reply opens a gap when it arrives |
| `Replica.Converges` | app/server.js:510-531 | once appends stop at N, enough successful polls bring the cursor to N and every row in (base, N] has been accepted, under the same traffic |
| `Tracking.CursorFollowsFrames` | app/server.js:597-617 | whatever else goes on, the cursor is at least as far as the frames were heard without one missing, with duplicates and stragglers in between |
| `Tracking.InOrderIsHeard` | app/server.js:597-617 | frames delivered each once and in order are all heard |
| `Tracking.CursorTracksLog` | app/server.js:597-617 | once the frames of all rows past the cursor have been delivered, each once and in order, interleaved with any other traffic and committed in any transactions, the cursor equals the log's end and a poll returns nothing |
| `Tracking.LoadIsTracked` | app/server.js:555-568 | the initial load of a replica that has heard nothing makes its history a stretch of the log |
| `Tracking.TrackedInEveryRun` | app/server.js:510-547 | while rows reach the replica in order, re-delivered recent ones aside, its history stays a stretch of the log |
| `Tracking.ShowsTheNewest` | app/server.js:487-547 | then the rows shown are in log order, and exactly the newest rows of the room when the cursor is at its end |
| `Replica.CatchUpCanLoseARow` | app/server.js:555-565 | a concrete run in which catch-up jumps a gap: the cursor is 3 and row 1 was never accepted |
| `DedupLru.SeenIds.RememberId` | app/server.js:251-255 | remembering moves the id to the newest end and drops the oldest when over size |
| `DedupLru.LatestMembers` | app/server.js:249-255 | the unbounded list holds exactly the latest remembering of each id |
| `DedupLru.RememberLastN` | app/server.js:251-255 | remembering into the bounded list is remembering into the unbounded one and then cutting |
| `DedupLru.KeepsMostRecent` | app/server.js:249-255 | the bounded list is exactly the most recently remembered ids, each with the number last given, in order |
| `ExactlyOnce.StoredOncePerId` | app/db_service.js:161-184 | a batch claims to have stored an id exactly as often as it brings it into the table |
| `ExactlyOnce.TableGrows` | app/db_service.js:200-213 | committing any repeated or regrouped calls only appends and changes no lookup that had an answer |
| `ExactlyOnce.CommitKeepsInv` | app/db_service.js:348-379 | committing any calls ever sent, in any grouping and as often as the network repeats them, keeps the invariant |
| `ExactlyOnce.DeliverKeepsInv` | app/server.js:716-726 | delivering one reply to its caller keeps it |
| `ExactlyOnce.PostKeepsInv` | app/server.js:710-716 | a client's request, answered from the id list or passed on, keeps it |
| `ExactlyOnce.InvInEveryRun` | app/server.js:113-205 | the invariant holds in every run of requests, commits, lost or late replies, firehose frames and restarts |
| `ExactlyOnce.StoredExactlyOnce` | app/server.js:709-727 | in every run each id has at most one row, every acknowledgement and every remembered id names that row's number, and at most one client is told it stored the message |
| `ExactlyOnce.AcknowledgedIsDurable` | app/server.js:709-727 | after an acknowledgement its row stays in the table under the number given, whatever happens later |
| `ExactlyOnce.RowsWerePosted` | app/db_service.js:161-184 | every row was there at the start or carries a message some backend was asked to store |
| `ExactlyOnce.RememberedIsAnsweredAtOnce` | app/server.js:709-716 | a message the backend remembers is answered on the spot with its number, as a duplicate |
| `ExactlyOnce.UndisturbedPostIsAnswered` | app/server.js:709-727 | any other request that is neither lost nor repeated is answered with the number of the one row of its message, as a duplicate if and only if the message was stored before, and is remembered |
| `ExactlyOnce.CallsClose` | app/server.js:133-155 | giving up closes a call, and so does a reply to it |
| `ExactlyOnce.ClosedIsSilent` | app/server.js:133-155 | the reply to a closed call tells nobody anything and stores nothing |
| `ExactlyOnce.HeardIsRemembered` | app/server.js:609-612 | a row heard on the firehose is remembered; a restart forgets all of one backend's ids and touches nothing else |
| `EndToEnd.BlockIsFeedPage` | app/db_service.js:404-416 | the rows a poll is answered with are those of the paging route over the public room, whatever its cursor |
| `EndToEnd.AnswersAreFeedPages` | app/server.js:510-513 | polls and catch-ups are answered by the paging route, with the page sizes they ask for |
| `EndToEnd.AppendIsCommit` | app/db_service.js:161-184 | one append moves the public room by one commit of the replicated log, or not at all |
| `EndToEnd.ApplyIsCommits` | app/db_service.js:200-213 | a whole batch moves it by a run of commits |
| `EndToEnd.StepKeepsInv` | app/server.js:510-726 | every step of clients, backends, database and replica together keeps both invariants, with the log equal to the public room |
| `EndToEnd.InvInEveryRun` | app/server.js:510-726 | so does every run from any consistent table in which no catch-up reply opens a gap |
| `EndToEnd.AcknowledgedIsReplicated` | app/server.js:497-527 | at every moment of such a run a public message acknowledged to any client, numbered after the initial window, is in the replica once its cursor has passed the number |
| `EndToEnd.AcknowledgedReachesReplica` | app/server.js:497-531 | once appends stop, enough successful polls bring every acknowledged public message past the initial window to the replica |
| `EndToEnd.PostedIsPolled` | app/server.js:510-727 | a new public message posted through any backend is acknowledged under the next number, and the very next poll of a replica that was up to date brings it there |
| `Coalescer.AppendQueue.DbAppend` | app/server.js:166-171 | a job joins the end of the queue and a flush is scheduled |
| `Coalescer.AppendQueue.FlushAppendQueue` | app/server.js:172-187 | one flush sends the first job's room out of the first batch, keeps the rest in the order the code leaves them, and reschedules itself while anything waits |
| `Coalescer.AppendQueue.OnResponse` | app/server.js:187-205 | every job of a request is told the element that came back in its place, and an error when there is none, or each is sent again by itself in order and the batch route is switched off |
| `Coalescer.FlushSplits` | app/server.js:172-181 | a flush sends at least one job, at most the batch size, all of one room, and sent and kept jobs together are exactly the queued ones |
| `Coalescer.FlushKeepsOrder` | app/server.js:172-181 | of the first batch exactly the jobs of the first one's room are sent, in order of arrival; the rest of the queue comes next and the others behind it, each in their order |
| `Coalescer.RoomOrderExactly` | app/server.js:172-181 | a flush keeps the order of arrival of a room's jobs if and only if it is the room that is sent, or has no jobs both in the first batch and behind it |
| `Coalescer.FlushCanReorder` | app/server.js:178-180 | with batches of two, a job of a second room is put behind a later job of its own room |
| `Coalescer.OnTheWire` | app/server.js:184-189 | a lone job, or any job once the batch route is missing, travels by itself, in order; otherwise all travel together |
| `Coalescer.SettlesInPlace` | app/server.js:184-205 | what comes back for a request, alone or batched, reaches each caller in its place; a missing element and an error refuse |
| `Coalescer.ResponseConserves` | app/server.js:188-205 | whatever comes back, each job of the request is settled once or sent again once |
| `Coalescer.FlushConserves` | app/server.js:172-187 | a flush neither loses nor doubles a job |
| `Coalescer.RespondConserves` | app/server.js:188-205 | neither does a response to any outstanding request |
| `Coalescer.NoJobLostOrDoubled` | app/server.js:163-205 | in every run queued, in-flight and settled jobs are as a multiset the submitted ones, and a waiting job always has a flush scheduled |
| `Coalescer.SettlesOnce` | app/server.js:163-205 | each job settles at most once and not while it is queued or in flight |
| `Coalescer.LoneJobSettles` | app/server.js:163-189 | a job submitted while nothing waits goes out by itself with the next flush and is settled with what comes back for it, or refused |
| `Coalescer.RouteMissingExactly` | app/server.js:194-199 | in every run the batch route is switched off if and only if some batch was answered in a way the backend does not know |
| `Coalescer.QueueDrains` | app/server.js:172-181 | without further submissions n flushes leave at most queue length minus n jobs, however rooms mix |
| `Coalescer.RouteResultsByPosition` | app/db_service.js:348-363 | the batch route answers each entry in its place: refused when malformed, else with the outcome of the append it queued |
| `Coalescer.EachGetsItsOwnResult` | app/server.js:200-204 | whatever other callers' appends the same transaction holds, a batched caller is accepted if and only if its message is new and binds or is stored and its retry can be logged; it is told its own id, the number of the one row of that id, and "duplicate" if and only if it is one |
| `Coalescer.LoneJobGetsItsResult` | app/db_service.js:364-378 | so is a job that travelled alone |
| `AdmissionGate.PopInOrder` | lb/loadbalancer.py:189-195 | taking the longest waiting future keeps grants in arrival order and ahead of everyone waiting |
| `AdmissionGate.WakeKeeps` | lb/loadbalancer.py:189-195 | waking restores the full invariant: nobody is left waiting beside a free slot, no future is forgotten |
| `AdmissionGate.UnwindKeepsInv` | lb/loadbalancer.py:211-220 | the cancel handler keeps the invariant, whether it leaves the queue or gives a slot back |
| `AdmissionGate.StepKeepsInv` | lb/loadbalancer.py:180-233 | so does every step: arrival, release, giving back, cancelling, unwinding, resizing |
| `AdmissionGate.GateInEveryRun` | lb/loadbalancer.py:180-233 | it holds in every run, even with cancellations unwinding late |
| `AdmissionGate.CountDiffersBy` | lb/loadbalancer.py:211-233 | in every run the count is the owners less the slots handlers gave back wrongly plus what the clamp put back, and never exceeds the owners |
| `AdmissionGate.CapacityIsLastAsked` | lb/loadbalancer.py:171-187 | after any run the capacity is the one last asked for, at least one; nothing but a resize changes it |
| `AdmissionGate.ReleaseClamps` | lb/loadbalancer.py:229-233 | a release never leaves the count below zero, and makes up exactly what it would have fallen short by |
| `AdmissionGate.UnwindExactly` | lb/loadbalancer.py:211-219 | an exact count stays exact over a cancel handler if and only if the handler finds its future still queued |
| `AdmissionGate.LostExactly` | lb/loadbalancer.py:211-219 | a run has lost no slot if and only if no cancel handler in it missed |
| `AdmissionGate.CountExactly` | lb/loadbalancer.py:189-233 | the count equals the number of slot owners at every moment of a run if and only if every cancel handler in it still found its future in the queue |
| `AdmissionGate.AtomicLosesNothing` | lb/loadbalancer.py:211-220 | when every cancellation unwinds at once no slot is lost |
| `AdmissionGate.GateWithCleanCancel` | lb/loadbalancer.py:180-233 | when no cancel handler misses, held equals the slot owners, a step that grants leaves no more owners than the capacity, a waiter exists only when the capacity is taken, grants follow arrival order, every arrival is granted, waiting or cancelled, and the clamp is never reached |
| `AdmissionGate.GateWithAtomicCancel` | lb/loadbalancer.py:180-233 | with cancellation atomic with respect to waking no handler misses, so all of that holds |
| `AdmissionGate.OthersStay` | lb/loadbalancer.py:180-233 | a step changes nothing for anyone it is not about, except that a waiter may be granted |
| `AdmissionGate.LeavesTheGate` | lb/loadbalancer.py:211-233 | a slot given back, and a cancelled wait whose handler has run, leave no trace at the gate |
| `AdmissionGate.NoGrantAtCapacity` | lb/loadbalancer.py:189-203 | no step from any state admits anyone past the capacity, and earlier grants stand |
| `AdmissionGate.LateUnwindOverAdmits` | lb/loadbalancer.py:189-220 | a concrete run with capacity 1 that ends with two owners and a count of one |
| `Bulkhead.Bulkhead.constructor` | lb/loadbalancer.py:169-178 | a new gate is empty and has the capacity asked for, at least one |
| `Bulkhead.Bulkhead.WakeUp` | lb/loadbalancer.py:189-195 | the wake loop computes the specified wake and keeps the queue counter equal to the queue length |
| `Bulkhead.Bulkhead.ResizeTo` | lb/loadbalancer.py:180-187 | resizing gives the gate the capacity asked for, at least one, is the specified step and keeps the invariant |
| `Bulkhead.Bulkhead.Acquire` | lb/loadbalancer.py:197-207 | a request is admitted at once if and only if a slot is free and nobody waits, else it queues last |
| `Bulkhead.Bulkhead.CancelFuture` | lb/loadbalancer.py:208-211 | hanging up marks a queued future done and nothing else |
| `Bulkhead.Bulkhead.UnwindCancelled` | lb/loadbalancer.py:211-220 | the handler is the specified step and keeps the invariant |
| `Bulkhead.Bulkhead.GiveSlotBack` | lb/loadbalancer.py:211-220 | a waiter granted its slot but cancelled before it resumes gives exactly that slot back |
| `Bulkhead.Bulkhead.ReleaseSlot` | lb/loadbalancer.py:229-233 | release is the specified step, and the clamp is not reached while no slot was lost |
| `Bulkhead.Bulkhead.Busy` | lb/loadbalancer.py:226-227 | busy is owners plus waiters, off only by the slots lost and clamped |
| `SmoothWrr.FirstMax` | lb/loadbalancer.py:500 | the chosen index is the first of the highest |
| `SmoothWrr.Pick` | lb/loadbalancer.py:496-502 | the loops over the pool choose and charge as the specification does |
| `SmoothWrr.NextBalanced` | lb/loadbalancer.py:496-502 | a pick keeps the current weights summing to zero and above minus the total |
| `SmoothWrr.AlwaysBalanced` | lb/loadbalancer.py:496-502 | so after any number of picks from zero |
| `SmoothWrr.CurrentIsDebt` | lb/loadbalancer.py:496-502 | after t picks a backend's current weight is t times its weight less its picks times the total |
| `SmoothWrr.FairAtEveryMoment` | lb/loadbalancer.py:496-502 | after t picks a backend of weight w out of N has n picks with t*w - (N-1)*(W-1) <= n*W < t*w + W |
| `SmoothWrr.RoundEndsAtZero` | lb/loadbalancer.py:496-502 | after W picks every current weight is zero again |
| `SmoothWrr.RoundIsExact` | lb/loadbalancer.py:496-502 | W picks give each backend exactly its weight |
| `SmoothWrr.RotationRepeats` | lb/loadbalancer.py:496-502 | the state after t + W picks is the state after t |
| `SmoothWrr.FirstMaxAmong` | lb/loadbalancer.py:465 | with backends excluded the choice is the first highest among those left |
| `SmoothWrr.ExclusionKeepsAccounts` | lb/loadbalancer.py:463-502 | whatever is excluded from whichever pick, the weights sum to zero and each is what the backend was offered less what it was charged |
| `SmoothWrr.FullPoolIsPlain` | lb/loadbalancer.py:465-502 | with nothing excluded that is the plain pick |
| `SmoothWrr.NegativeWeightDrifts` | lb/loadbalancer.py:496-502 | a backend with a negative weight, which registering allows, sinks by at least one for every pick while the total is not negative |
| `SmoothWrr.BalancedExactly` | lb/loadbalancer.py:496-502 | the current weights sum to zero and stay above minus the total at every moment if and only if no weight is negative and the weights sum to at least one |
| `Health.NeverEmptiesThePool` | lb/loadbalancer.py:944-962 | no run of probes, proxied requests and prunings takes the routable count from at least one to zero |
| `Health.EmptiedExactly` | lb/loadbalancer.py:411-435 | a step takes the routable count to zero if and only if it deregisters the last routable member |
| `Health.StepOf` | lb/loadbalancer.py:411-444 | whatever an event does to the pool, the member with one id is affected as its own rules say, wherever joining and pruning have moved it |
| `Health.CountersAreStreaks` | lb/loadbalancer.py:921-946 | in every run, members leaving, joining, coming back and being pruned included, the three counters are the good probes in a row, the refusals (or bad statuses) since the last good probe or return from draining, and the failures since the backend last served |
| `Health.ReadmittedExactly` | lb/loadbalancer.py:411-426 | in every run and at every event a member out of rotation comes back if and only if it is dead and a good probe completes the required streak since it was taken for dead, or it is draining and registers again |
| `Health.EjectedExactly` | lb/loadbalancer.py:944-954 | in every run and at every event a member leaves the rotation if and only if it is refused often enough with no good probe between, or fails a proxied request before the reply head often enough since it last served, and another backend is routable, or it deregisters |
| `Health.DiesExactly` | lb/loadbalancer.py:944-958 | in every run and at every event a member is found dead if and only if it is refused often enough and is draining or another is routable, or proxy failures eject it |
| `Health.DegradedExactly` | lb/loadbalancer.py:925-943 | in every run a routable member is degraded if and only if the last of its probes that was not refused was slow or timed out, joining and returning from draining counting as quick |
| `Health.CountIsCardinality` | lb/loadbalancer.py:454 | the routable count is the number of routable members |
| `Health.SlownessNeverEjects` | lb/loadbalancer.py:934-943 | a timed-out probe or a mid-body failure changes nobody's place in the rotation |
| `Health.DrainTakesOut` | lb/loadbalancer.py:428-435 | deregistering takes exactly the member with that id out of rotation |
| `Health.DrainedStaysOut` | lb/loadbalancer.py:921-958 | a draining backend that still takes connections is never routed to again on the balancer's own evidence |
| `Health.RegisterAdmits` | lb/loadbalancer.py:411-426 | registering makes the id a member, routable unless it was found dead, and changes no other |
| `Health.ReregistrationSkipsProbes` | lb/loadbalancer.py:411-435 | a dead backend that deregisters and registers again is routable at once |
| `Health.ReadmittedOnProbation` | lb/loadbalancer.py:1015-1020 | a backend ejected by proxy failures and readmitted is ejected by its next failure |
| `BackendPool.Pool.AnyOther` | lb/loadbalancer.py:948 | the scan finds whether any other backend is routable |
| `BackendPool.Pool.CountRoutable` | lb/loadbalancer.py:454 | the active count is the number of routable members |
| `BackendPool.Pool.OnProbe` | lb/loadbalancer.py:913-958 | one round of the health loop for one backend is the specified step and touches no other backend |
| `BackendPool.Pool.EjectNow` | lb/loadbalancer.py:993-1025 | the passive check is the specified step and touches no other backend |
| `BackendPool.Pool.Served` | lb/loadbalancer.py:1454 | a served request clears that backend's failures only |
| `BackendPool.Pool.AddBackend` | lb/loadbalancer.py:411-426 | registering adds an unknown backend, returns a draining one to rotation, leaves any other alone, and says which |
| `BackendPool.Pool.DrainBackend` | lb/loadbalancer.py:428-435 | deregistering drains the member with that id, once |
| `BackendPool.Pool.PruneDown` | lb/loadbalancer.py:960-962 | only a dead member is dropped |
| `Seating.MoveKeepsSeated` | lb/loadbalancer.py:189-233 | a step of a gate about one connection moves nobody else, except that a waiter may be granted |
| `Seating.StepKeepsSeated` | lb/loadbalancer.py:1383-1486 | every step keeps connections and gates matched: whoever is served owns a slot of its own, whoever a gate has in its queue or slots is a connection, however late cancel handlers run |
| `DispatchRuns.AccountedInEveryRun` | lb/loadbalancer.py:1379-1486 | over all interleavings that matching holds, each in-flight count is the exchanges on that backend, and every request is written to at most one backend, the one that serves it |
| `DispatchRuns.RetriesAreBounded` | lb/loadbalancer.py:1394-1410 | no backend is tried twice for a request, so failed connects are at most the known backends |
| `DispatchRuns.HoldersAreOwners` | lb/loadbalancer.py:1387-1391 | connections travelling in slots of a gate are at most its slot owners |
| `DispatchRuns.ProxyingNeedsSlotOrSocket` | lb/loadbalancer.py:1383-1391 | with admission on, exchanges are at most the slots travelled in plus the open WebSockets |
| `DispatchRuns.InFlightWithinAdmission` | lb/loadbalancer.py:1379-1486 | in every run with admission on, the backends' in-flight total is at most the slots owned at both gates and the open WebSockets, and at most the counts of both gates, the open WebSockets and what late cancel handlers took off the counts |
| `DispatchRuns.NothingLostExactly` | lb/loadbalancer.py:211-219 | no slot was lost at either gate if and only if no cancel handler missed |
| `DispatchRuns.InFlightWithinHeld` | lb/loadbalancer.py:1379-1486 | when none missed, the in-flight total is at most request slots held, feed slots held and open WebSockets |
| `DispatchRuns.AtomicIsClean` | lb/loadbalancer.py:189-220 | if, while a gate has a cancelled future, its handler is the only step taken there, no handler misses |
| `DispatchRuns.InFlightCanExceedHeld` | lb/loadbalancer.py:189-220 | a concrete run with one request slot that ends with two requests in flight and a count of one |
| `DispatchRuns.NothingLeaks` | lb/loadbalancer.py:1480-1486 | once no connection is being served or waiting, nobody owns a slot or queues and nothing is in flight, and each count is off zero by exactly the slots late handlers took off it, by none in a clean run |
| `Journeys.AdmittedIsServed` | lb/loadbalancer.py:1383-1486 | from any state that holds together, with a slot free and nobody waiting a request is admitted at once, written to its backend and answered, and leaves no trace but that record; meanwhile it holds one slot and counts as one in flight |
| `Journeys.WaiterIsServed` | lb/loadbalancer.py:196-224 | a granted waiter goes on with its slot when it resumes, and gives it back at the end |
| `Journeys.UngrantedStays` | lb/loadbalancer.py:204-210 | a waiter that was not granted yet goes nowhere |
| `Journeys.RetriedElsewhere` | lb/loadbalancer.py:1394-1410 | a failed connect counts nowhere, is never repeated, and the next backend gets the request |
| `Journeys.SocketPassesBy` | lb/loadbalancer.py:1383-1391 | a WebSocket passes both gates by and closes however it ends |
| `Journeys.UngatedIsServed` | lb/loadbalancer.py:1383-1391 | with admission off a request is served without a slot |
| `Journeys.HangUpLeaves` | lb/loadbalancer.py:196-220 | with no slot free a request queues last, and hanging up leaves the gate as it was |
| `Journeys.NoBackendLeaves` | lb/loadbalancer.py:1399-1403 | a request no backend takes closes its connection and gives its slot back |
| `Journeys.ResizeReaches` | lb/loadbalancer.py:450-461 | a resize reaches its gate and nothing else |
| `Journeys.CapacityIsLastAsked` | lb/loadbalancer.py:180-187 | in every interleaving each gate has the capacity last asked for there, at least one |
| `Serving.Pick` | lb/loadbalancer.py:463-467 | what is picked is preferred, routable and not tried yet, and nothing is picked only when no preferred backend is |
| `Serving.PickIsRoutable` | lb/loadbalancer.py:463-467 | what is picked is a routable member, and nothing is picked only when every routable member preferred was tried |
| `Serving.PoolObserves` | lb/loadbalancer.py:993-1025 | the pool part of what pool and gates go through is the run of the evidence under the health rules |
| `Serving.StaysSized` | lb/loadbalancer.py:450-461 | whatever evidence proxied requests give, gates sized to the pool stay sized to it: an ejection resizes them and nothing else changes the routable count |
| `Serving.Server.RefreshActive` | lb/loadbalancer.py:450-461 | both gates are resized to the routable backends counted afresh, slots times at least one and the feed slots, each at least one, and whoever owns a slot keeps it |
| `Serving.Server.NoteFailure` | lb/loadbalancer.py:993-1025 | a failure is evidence, and when it ejects the gates are resized to the pool that is left |
| `Serving.Server.NoteServed` | lb/loadbalancer.py:1454 | a served request clears the failures of its backend and resizes nothing |
| `Serving.Server.Connect` | lb/loadbalancer.py:1394-1410 | the connect-retry loop ends; every attempt went to what was picked then and failed, pool and gates have seen exactly those failures, and what is chosen accepts a connection |
| `Serving.Server.Report` | lb/loadbalancer.py:1454-1479 | a served exchange clears the backend's failures and is relayed; one that fails before the reply head is held against the backend, ejecting it when it was one too many and another is routable, and is a bad gateway; one that fails later, or is cut off by something uncaught, leaves no trace in the pool |
| `Serving.Server.Forward` | lb/loadbalancer.py:1414-1483 | in-flight counts are as before on every exit |
| `Serving.Server.ServeAdmitted` | lb/loadbalancer.py:1394-1486 | one admitted request with preference, reachability and ejections changing from attempt to attempt: its bytes go to one backend, the reply matches how the exchange went, the pool has seen exactly its evidence, each ejection resized the gates, which stay sized to the pool, and then its slot was released once |
| `Serving.UntriedAreSpared` | lb/loadbalancer.py:1407-1410 | ejections on the way leave every backend not tried as it was |
| `Serving.WritesToFirstReachable` | lb/loadbalancer.py:1394-1410 | with a fixed preference the request is written to the first preferred backend that could be reached at the start, and fails only when there is none |
| `Generations.TakeKeepsInv` | lb/loadbalancer.py:641-679 | handing out a body keeps counts, addresses, files and the memory budget right, and what is handed out is current or still streamed |
| `Generations.DoneKeepsInv` | lb/loadbalancer.py:681-689 | a reader leaving keeps them, dropping a file only with the last reader of a body no longer current |
| `Generations.StoreKeepsInv` | lb/loadbalancer.py:848-862 | storing a new body at any free address keeps them |
| `Generations.TakeHandsOut` | lb/loadbalancer.py:659-679 | a reader that takes the encoding gets the current body if it is streamed already, nothing is, or holding it too is within the budget, otherwise one that is streamed and has as many readers as any, and exactly that body gains a reader |
| `Generations.DoneLetsGo` | lb/loadbalancer.py:681-689 | a reader that leaves is no longer counted, and the file goes with the last reader of a body that is not current, and only then |
| `Generations.StoreReplaces` | lb/loadbalancer.py:848-862 | a store makes the new body current, gives it a file if and only if one was written, and drops the file of the replaced body if and only if nobody streams that |
| `Generations.StepKeepsInv` | lb/loadbalancer.py:641-708 | every step keeps them |
| `Generations.CacheInEveryRun` | lb/loadbalancer.py:641-862 | in every run, with addresses reused as freely as the allocator may, each live entry counts its outstanding takes and pinned memory is within the budget unless one generation is live |
| `Generations.ReaderGetsItsOwnPayload` | lb/loadbalancer.py:1328-1363 | while a body is streamed the file under its address holds its payload and no other body is held at that address |
| `Generations.NoKeyOutlivesItsBody` | lb/loadbalancer.py:681-708 | every key of `files` and every live entry belongs to the current body or one still streamed |
| `FeedCache.FeedCache.TakeBody` | lb/loadbalancer.py:641-679 | a reader is handed that body or nothing, is counted there and nowhere else, and the invariant is kept |
| `FeedCache.FeedCache.DropFile` | lb/loadbalancer.py:691-703 | dropping removes that key and no other |
| `FeedCache.FeedCache.FinishBody` | lb/loadbalancer.py:681-689 | finishing is the specified step and keeps the invariant |
| `FeedCache.FeedCache.StoreBody` | lb/loadbalancer.py:848-862 | storing is the specified step, keeps the invariant and makes the new body current |
| `Chunked.CrlfAt` | lb/loadbalancer.py:1172 | the separator search finds the first CRLF |
| `Chunked.ReadsItsLine` | lb/loadbalancer.py:1172 | a line within the reader's limit is read whole and what follows stays |
| `Chunked.ParsesDigits` | lb/loadbalancer.py:1173 | digits that write a number in hexadecimal, in either case and after any zeros, with blanks after them, read as that number |
| `Chunked.WritesItsValue` | lb/loadbalancer.py:1173 | digits have the value n if and only if they write n by repeated division by sixteen over a table of digits |
| `SizeField.FieldReadExactly` | lb/loadbalancer.py:1173 | a field reads as v if and only if it is spaces, a sign, a 0x prefix, digits with single underscores between them and spaces, and the digits with the sign write v |
| `SizeField.SizeOfLine` | lb/loadbalancer.py:1172-1173 | the size is read from what precedes the first semicolon, whatever follows it |
| `SizeField.SizeReadExactly` | lb/loadbalancer.py:1172-1173 | so a size line is read as v if and only if what precedes its first semicolon is such a spelling of v |
| `Chunked.LooseSpellings` | lb/loadbalancer.py:1173 | a sign or a 0x prefix before the digits is read too, a minus giving a negative size |
| `Chunked.BadSizeRefused` | lb/loadbalancer.py:1173-1183 | a size that cannot be read, or is below zero, refuses the body |
| `Chunked.SizeLineParses` | lb/loadbalancer.py:1172-1173 | a size line with any hexadecimal spelling of n, blanks and extension reads as n |
| `Chunked.DecodeFrame` | lb/loadbalancer.py:1180-1184 | one chunk is taken whole whatever two bytes follow it, or refused if it would exceed the cap |
| `Chunked.SkipsEncodedTrailers` | lb/loadbalancer.py:1174-1178 | trailers are discarded up to the blank line and no further |
| `Chunked.NextRequestUntouched` | lb/loadbalancer.py:1168-1185 | for every input accepted, the body fits the cap, and with any other bytes after the encoding the same body is read and exactly those bytes are left |
| `Chunked.RoundTrip` | lb/loadbalancer.py:1168-1185 | for every cut of a body into non-empty chunks with any extensions and trailers, decoding returns the body and leaves the next request, or refuses it if and only if the body is over the cap |
| `Chunked.SentIsRead` | lb/loadbalancer.py:1168-1185 | a sender that writes each size in hexadecimal from the length of its data, after any zeros, is read back: the body and the next request, or a refusal if and only if the body is over the cap |
| `Chunked.DelimiterUnchecked` | lb/loadbalancer.py:1184 | replacing the CRLF after a chunk by any two bytes changes nothing |
| `ChunkGrammar.EncodingExactly` | lb/loadbalancer.py:1168-1185 | accepted input is chunks with extensions and trailers of any content if and only if every size field read was plain hexadecimal digits with blanks after them and every delimiter was CRLF |
| `ChunkGrammar.StrictIsEncoding` | lb/loadbalancer.py:1168-1185 | such input encodes exactly the body that was read |
| `ChunkGrammar.EncodingMatchesGrammar` | lb/loadbalancer.py:1168-1185 | such an encoding reads as the grammar of section 7.1 of RFC 9112 wants, line by line, if and only if its size lines and trailers are in that grammar |
| `ChunkGrammar.DerivedExactly` | lb/loadbalancer.py:1168-1185 | accepted input is derived by that grammar if and only if every size line read was a chunk size with chunk extensions, every trailer line a field line and every delimiter CRLF |
| `ChunkGrammar.PrefixedZeroAccepted` | lb/loadbalancer.py:1173 | "0x0" for the last chunk is accepted and is no encoding, with extensions of any content or not |
| `ChunkGrammar.WrongDelimiterAccepted` | lb/loadbalancer.py:1184 | a one-byte chunk ended by "!!" is accepted with its byte and is no encoding either |
| `ChunkGrammar.ExtensionsUnchecked` | lb/loadbalancer.py:1173 | "0;" for the last chunk is accepted with plain sizes and right delimiters, and the grammar does not derive it |
| `Chunked.StreamReader.ReadUntilCrlf` | lb/loadbalancer.py:1172 | reading a line consumes it and its CRLF; a line over the limit is left where it is, a stream that ends first is used up |
| `Chunked.StreamReader.ReadExactly` | lb/loadbalancer.py:1183 | exactly n bytes are consumed, or the read fails |
| `Chunked.StreamReader.DrainTrailers` | lb/loadbalancer.py:1174-1178 | the trailer loop leaves the stream just after the blank line |
| `Chunked.StreamReader.ReadChunked` | lb/loadbalancer.py:1168-1185 | the collecting loop returns what the specification decodes and leaves the stream where it says, with the same refusals |

## Left out

- Sockets, sendfile, kernel buffers, WebSocket framing, SQLite, zlib, brotli and JSON: foreign calls.  The table is a sequence of rows, a rendered row an arbitrary byte sequence given by a function parameter.
- Ids, rooms and message contents are opaque tokens compared only for equality; the id syntax check and the minting of missing ids (app/server.js:318-330, app/db_service.js:356-357) are not modelled.
- Cryptography, login, sessions and locked rooms (app/static/crypto.js, app/server.js:208-247): they rest on primitives that are not part of this model.
- Migration from the older store (app/db_service.js:255-285): it imports arbitrary numbers, so a gap-free table at boot is a hypothesis of the theorems about runs.
- `BEGIN IMMEDIATE` throwing (app/db_service.js:204, outside the `try`): the queued appends would then never settle.
- Configuration values at which the source itself breaks down: a feed maximum or batch maximum of 0, and page maxima of 0.
- Chunked: `Content-Length` bodies, and a line limit other than the 16384 bytes the server is started with.
- The tail cache's time-to-live (app/db_service.js:419-431) is nondeterminism: the answer to a tail request may come from any earlier log.
- The accuracy of `feedTotal` beyond "never less than the rows shown": the code does not give more after a partial page.
- The compressed copies of the feed, the ETag and conditional requests (app/server.js:424-485, 738; lb/loadbalancer.py:710-840): they identify content only between trims.  Single-flight revalidation (lb/loadbalancer.py:721-811) decides when a store happens, which is an arbitrary event here.
- Threads: the health thread and the event loop interleave between steps, each step being atomic.
- Time: which member is pruned when, which probes are recent and when a request times out are arbitrary choices of the events.
- The other selection algorithms (threshold, power of two choices, least connections, hash): scores are floating point and choices random.  In `Dispatch` and `Serving` the preference order among backends is arbitrary.
- SmoothWrr: the fairness bounds are for a fixed pool; when the pool changes between picks only the accounts of `ExclusionKeepsAccounts` are kept.
- Statistics that decide nothing: `admitted`, `waited`, `requests`, `errors`, `hits`, latencies and the access log.
- Membership by reloading the configuration file (lb/loadbalancer.py:372-404) and by the admin removal route (lines 437-444, 1595), and a configuration that lists one id twice: theorems about a member assume its id is listed once.
- Serving: one request by itself; the evidence other connections give the pool between its attempts is not in it.  `Dispatch` interleaves connections and leaves the pool's verdicts out.
- EndToEnd: one replica at a time; replicas share nothing but the log, so the result holds of each.
- Browser interface, dashboard, load generators, plots and deployment scripts.
