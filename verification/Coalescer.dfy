/**
 * Coalesced appends on a backend (app/server.js:162-205) and the batch route that
 * answers them (app/db_service.js:348-363): jobs queue up, one flush sends the jobs of
 * one room together, and every caller gets the answer to its own entry.
 */
module Coalescer {
  import opened Common
  import opened MessageTable

  /** One caller of dbAppend; `no` stands for its promise. */
  datatype Ticket = Ticket(no: nat, job: Job)

  /** Requests on the wire: a single POST /messages or one POST /messages/batch. */
  datatype Flight = One(ticket: Ticket) | Many(tickets: seq<Ticket>)

  /** One element of `results`, or the answer to a single POST. */
  datatype Result = Accepted(id: Id, num: nat, duplicate: bool) | Refused

  /** What comes back: results by position, a shape the backend does not know, or an error. */
  datatype Response = Results(results: seq<Result>) | Malformed | NoAnswer

  datatype Settled = Settled(ticket: Ticket, result: Result)

  function InSameRoom(jobs: seq<Ticket>, room: Room): seq<Ticket> {
    if jobs == [] then []
    else
      var front := InSameRoom(jobs[..|jobs| - 1], room);
      if jobs[|jobs| - 1].job.room == room then front + [jobs[|jobs| - 1]] else front
  }

  function InOtherRooms(jobs: seq<Ticket>, room: Room): seq<Ticket> {
    if jobs == [] then []
    else
      var front := InOtherRooms(jobs[..|jobs| - 1], room);
      if jobs[|jobs| - 1].job.room == room then front else front + [jobs[|jobs| - 1]]
  }

  /** The jobs one flush sends: those of the first `max` that share the first one's room. */
  function Sent(queue: seq<Ticket>, max: nat): seq<Ticket>
    requires max >= 1
  {
    if queue == [] then [] else InSameRoom(queue[..Min(max, |queue|)], queue[0].job.room)
  }

  /** The queue one flush leaves: the rest, then the jobs it looked at but did not send. */
  function Kept(queue: seq<Ticket>, max: nat): seq<Ticket>
    requires max >= 1
  {
    if queue == [] then []
    else queue[Min(max, |queue|)..] + InOtherRooms(queue[..Min(max, |queue|)], queue[0].job.room)
  }

  function Singles(tickets: seq<Ticket>): seq<Flight> {
    if tickets == [] then [] else Singles(tickets[..|tickets| - 1]) + [One(tickets[|tickets| - 1])]
  }

  /** A lone job, or any job once the route is known to be missing, travels by itself. */
  function Launch(tickets: seq<Ticket>, routeMissing: bool): seq<Flight> {
    if tickets == [] then []
    else if |tickets| == 1 || routeMissing then Singles(tickets)
    else [Many(tickets)]
  }

  function ResultAt(results: seq<Result>, i: nat): Result {
    if i < |results| then results[i] else Refused
  }

  /** The settlements one response brings; a malformed batch answer brings none. */
  function Settlements(f: Flight, r: Response): seq<Settled> {
    match f
    case One(t) => [Settled(t, if r.Results? then ResultAt(r.results, 0) else Refused)]
    case Many(ts) =>
      match r
      case Results(results) => seq(|ts|, i requires 0 <= i < |ts| => Settled(ts[i], ResultAt(results, i)))
      case Malformed => []
      case NoAnswer => seq(|ts|, i requires 0 <= i < |ts| => Settled(ts[i], Refused))
  }

  /** Every caller of the request is told what came back for it: the element in its place,
      and an error when there is none. */
  ghost predicate SettledInPlace(f: Flight, r: Response, settled: seq<Settled>) {
    var tickets := if f.One? then [f.ticket] else f.tickets;
    && |settled| == |tickets|
    && forall i | 0 <= i < |tickets| ::
         && settled[i].ticket == tickets[i]
         && (r.Results? && i < |r.results| ==> settled[i].result == r.results[i])
         && (!r.Results? || i >= |r.results| ==> settled[i].result.Refused?)
  }

  lemma SettlesInPlace(f: Flight, r: Response)
    ensures if f.Many? && r.Malformed? then Settlements(f, r) == [] else SettledInPlace(f, r, Settlements(f, r))
  {
  }

  /** The flights one response starts: a batch the database cannot take goes one by one. */
  function Relaunched(f: Flight, r: Response): seq<Flight> {
    if f.Many? && r.Malformed? then Singles(f.tickets) else []
  }

  // ---- the running object ----------------------------------------------------

  class AppendQueue {
    const batchMax: nat
    var queue: seq<Ticket>
    var flushScheduled: bool
    var routeMissing: bool

    /** A waiting job always has a flush scheduled, and only then. */
    ghost predicate Valid()
      reads this
    {
      batchMax >= 1 && (flushScheduled <==> queue != [])
    }

    constructor (batchMax: nat)
      requires batchMax >= 1
      ensures Valid() && queue == [] && !routeMissing && this.batchMax == batchMax
    {
      this.batchMax, queue, flushScheduled, routeMissing := batchMax, [], false, false;
    }

    method DbAppend(t: Ticket)
      requires Valid()
      modifies this`queue, this`flushScheduled
      ensures Valid() && queue == old(queue) + [t]
    {
      queue := queue + [t];
      if !flushScheduled {
        flushScheduled := true;
      }
    }

    method FlushAppendQueue() returns (flights: seq<Flight>)
      requires Valid()
      modifies this`queue, this`flushScheduled
      ensures Valid()
      ensures queue == Kept(old(queue), batchMax)
      ensures flights == Launch(Sent(old(queue), batchMax), routeMissing)
    {
      hide Launch, Singles;
      flushScheduled := false;
      var n := Min(batchMax, |queue|);
      var jobs := queue[..n];
      queue := queue[n..];
      if queue != [] && !flushScheduled {
        flushScheduled := true;
      }
      NothingToLaunch(routeMissing);
      if jobs == [] {
        return [];
      }
      var room := jobs[0].job.room;
      var same: seq<Ticket> := [];
      for i := 0 to |jobs|
        invariant same == InSameRoom(jobs[..i], room)
        invariant queue == old(queue)[n..] && (flushScheduled <==> queue != [])
      {
        assert jobs[..i + 1][..i] == jobs[..i];
        if jobs[i].job.room == room {
          same := same + [jobs[i]];
        }
      }
      ghost var rest := queue;
      for i := 0 to |jobs|
        invariant queue == rest + InOtherRooms(jobs[..i], room)
        invariant rest != [] ==> flushScheduled
        invariant rest == [] ==> !flushScheduled
      {
        assert jobs[..i + 1][..i] == jobs[..i];
        if jobs[i].job.room != room {
          queue := queue + [jobs[i]];
        }
      }
      assert jobs[..|jobs|] == jobs;
      if queue != [] && !flushScheduled {
        flushScheduled := true;
      }
      flights := Launch(same, routeMissing);
    }

    /** What came back for one request is handed to its callers, each in its place; a batch
        the database cannot take is sent again entry by entry, and so is every later one. */
    method OnResponse(f: Flight, r: Response) returns (settled: seq<Settled>, relaunched: seq<Flight>)
      modifies this`routeMissing
      ensures settled == Settlements(f, r) && relaunched == Relaunched(f, r)
      ensures f.One? || !r.Malformed? ==> SettledInPlace(f, r, settled) && relaunched == []
      ensures f.Many? && r.Malformed? ==>
                && settled == [] && |relaunched| == |f.tickets|
                && forall i | 0 <= i < |relaunched| :: relaunched[i] == One(f.tickets[i])
      ensures routeMissing == (old(routeMissing) || (f.Many? && r.Malformed?))
    {
      SettlesInPlace(f, r);
      settled, relaunched := [], [];
      match f {
        case One(t) =>
          settled := [Settled(t, if r.Results? then ResultAt(r.results, 0) else Refused)];
        case Many(ts) =>
          match r {
            case NoAnswer =>
              for i := 0 to |ts|
                invariant settled == Settlements(f, r)[..i]
              {
                settled := settled + [Settled(ts[i], Refused)];
              }
            case Malformed =>
              routeMissing := true;
              for i := 0 to |ts|
                invariant relaunched == Singles(ts[..i]) && |relaunched| == i
                invariant forall k | 0 <= k < i :: relaunched[k] == One(ts[k])
              {
                assert ts[..i + 1][..i] == ts[..i];
                relaunched := relaunched + [One(ts[i])];
              }
              assert ts[..|ts|] == ts;
            case Results(results) =>
              for i := 0 to |ts|
                invariant settled == Settlements(f, r)[..i]
              {
                var result := if i < |results| then results[i] else Refused;
                settled := settled + [Settled(ts[i], result)];
              }
          }
      }
    }
  }

  // ---- runs ------------------------------------------------------------------

  datatype State = State(
    queue: seq<Ticket>, flushScheduled: bool, routeMissing: bool,
    flying: seq<Flight>, settled: seq<Settled>, submitted: seq<Ticket>)

  datatype Event = Submit(job: Job) | Flush | Respond(i: nat, r: Response)

  const INIT := State([], false, false, [], [], [])

  function Step(s: State, max: nat, e: Event): State
    requires max >= 1
  {
    match e
    case Submit(job) =>
      var t := Ticket(|s.submitted|, job);
      s.(queue := s.queue + [t], flushScheduled := true, submitted := s.submitted + [t])
    case Flush =>
      if !s.flushScheduled then s
      else s.(queue := Kept(s.queue, max), flushScheduled := Kept(s.queue, max) != [],
              flying := s.flying + Launch(Sent(s.queue, max), s.routeMissing))
    case Respond(i, r) =>
      if i >= |s.flying| then s
      else
        var f := s.flying[i];
        s.(flying := Remove(s.flying, i) + Relaunched(f, r),
           settled := s.settled + Settlements(f, r),
           routeMissing := s.routeMissing || (f.Many? && r.Malformed?))
  }

  function Run(max: nat, events: seq<Event>): State
    requires max >= 1
  {
    if events == [] then INIT else Step(Run(max, events[..|events| - 1]), max, events[|events| - 1])
  }

  function Aboard(f: Flight): multiset<Ticket> {
    match f
    case One(t) => multiset{t}
    case Many(ts) => multiset(ts)
  }

  function AllAboard(flying: seq<Flight>): multiset<Ticket> {
    if flying == [] then multiset{} else AllAboard(flying[..|flying| - 1]) + Aboard(flying[|flying| - 1])
  }

  function Owners(settled: seq<Settled>): seq<Ticket> {
    seq(|settled|, i requires 0 <= i < |settled| => settled[i].ticket)
  }

  // ---- lemmas ----------------------------------------------------------------

  lemma {:induction false} PartitionByRoom(jobs: seq<Ticket>, room: Room)
    ensures multiset(InSameRoom(jobs, room)) + multiset(InOtherRooms(jobs, room)) == multiset(jobs)
    ensures |InSameRoom(jobs, room)| + |InOtherRooms(jobs, room)| == |jobs|
    ensures forall t | t in InSameRoom(jobs, room) :: t.job.room == room
  {
    if jobs != [] {
      PartitionByRoom(jobs[..|jobs| - 1], room);
      assert jobs == jobs[..|jobs| - 1] + [jobs[|jobs| - 1]];
    }
  }

  lemma {:induction false} HeadInRoom(jobs: seq<Ticket>)
    requires jobs != []
    ensures |InSameRoom(jobs, jobs[0].job.room)| >= 1
  {
    if |jobs| > 1 {
      HeadInRoom(jobs[..|jobs| - 1]);
    }
  }

  /** The places of those in the room, and of the others. */
  ghost predicate SplitAtPlaces(jobs: seq<Ticket>, room: Room, same: seq<nat>, other: seq<nat>) {
    forall k | 0 <= k < |jobs| :: (k in same <==> jobs[k].job.room == room) && (k in other <==> k !in same)
  }

  lemma SplitSnoc(front: seq<Ticket>, t: Ticket, room: Room, same: seq<nat>, other: seq<nat>)
    requires SplitAtPlaces(front, room, same, other)
    requires forall k | k in same || k in other :: k < |front|
    ensures if t.job.room == room then SplitAtPlaces(front + [t], room, same + [|front|], other)
            else SplitAtPlaces(front + [t], room, same, other + [|front|])
  {
  }

  /** Both halves keep the order of arrival: each is the jobs at some increasing places, and
      those of the one are exactly the places of the room. */
  lemma {:induction false} RoomsKeepOrder(jobs: seq<Ticket>, room: Room) returns (same: seq<nat>, other: seq<nat>)
    ensures PickedAt(InSameRoom(jobs, room), jobs, same) && PickedAt(InOtherRooms(jobs, room), jobs, other)
    ensures SplitAtPlaces(jobs, room, same, other)
  {
    same, other := [], [];
    if jobs != [] {
      var front, t := jobs[..|jobs| - 1], jobs[|jobs| - 1];
      same, other := RoomsKeepOrder(front, room);
      SplitSnoc(front, t, room, same, other);
      PickedSnoc(InSameRoom(front, room), front, same, t);
      PickedSnoc(InOtherRooms(front, room), front, other, t);
      SplitLast(jobs);
      hide PickedAt, SplitAtPlaces;
      if t.job.room == room {
        same := same + [|front|];
      } else {
        other := other + [|front|];
      }
    }
  }

  /** A flush sends, of the first `max` jobs, those of the first one's room in their order of
      arrival, and puts the others behind the rest in theirs. */
  lemma FlushKeepsOrder(queue: seq<Ticket>, max: nat) returns (sent: seq<nat>, back: seq<nat>)
    requires max >= 1 && queue != []
    ensures var n := Min(max, |queue|);
            && PickedAt(Sent(queue, max), queue[..n], sent)
            && SplitAtPlaces(queue[..n], queue[0].job.room, sent, back)
            && |Kept(queue, max)| >= |queue| - n
            && Kept(queue, max)[..|queue| - n] == queue[n..]
            && PickedAt(Kept(queue, max)[|queue| - n..], queue[..n], back)
  {
    hide InSameRoom, InOtherRooms, PickedAt, SplitAtPlaces;
    var n := Min(max, |queue|);
    sent, back := RoomsKeepOrder(queue[..n], queue[0].job.room);
  }

  /** A flush sends at least one job, all of one room, and drops or doubles none: what it
      sends and what it keeps are together exactly what was queued. */
  lemma FlushSplits(queue: seq<Ticket>, max: nat)
    requires max >= 1 && queue != []
    ensures 1 <= |Sent(queue, max)| <= max
    ensures |Kept(queue, max)| == |queue| - |Sent(queue, max)|
    ensures multiset(Sent(queue, max)) + multiset(Kept(queue, max)) == multiset(queue)
    ensures forall t | t in Sent(queue, max) :: t.job.room == queue[0].job.room
  {
    var n := Min(max, |queue|);
    var jobs, room := queue[..n], queue[0].job.room;
    PartitionByRoom(jobs, room);
    HeadInRoom(jobs);
    assert queue == jobs + queue[n..];
    assert multiset(queue) == multiset(jobs) + multiset(queue[n..]);
    assert multiset(Kept(queue, max)) == multiset(queue[n..]) + multiset(InOtherRooms(jobs, room));
  }

  lemma {:induction false} InSameRoomConcat(a: seq<Ticket>, b: seq<Ticket>, room: Room)
    ensures InSameRoom(a + b, room) == InSameRoom(a, room) + InSameRoom(b, room)
  {
    if b == [] {
      assert a + b == a;
    } else {
      InSameRoomConcat(a, b[..|b| - 1], room);
      assert (a + b)[..|a + b| - 1] == a + b[..|b| - 1];
    }
  }

  lemma {:induction false} RoomWithin(jobs: seq<Ticket>, first: Room, room: Room)
    ensures InSameRoom(InSameRoom(jobs, first), room) == if room == first then InSameRoom(jobs, room) else []
    ensures InSameRoom(InOtherRooms(jobs, first), room) == if room == first then [] else InSameRoom(jobs, room)
  {
    if jobs != [] {
      var front, last := jobs[..|jobs| - 1], jobs[|jobs| - 1];
      RoomWithin(front, first, room);
      InSameRoomPush(InSameRoom(front, first), last, room);
      InSameRoomPush(InOtherRooms(front, first), last, room);
    }
  }

  lemma InSameRoomPush(front: seq<Ticket>, t: Ticket, room: Room)
    ensures InSameRoom(front + [t], room) == InSameRoom(front, room) + if t.job.room == room then [t] else []
  {
    assert (front + [t])[..|front|] == front;
  }

  /** One room's jobs leave in the order in which they were queued. */
  ghost predicate RoomInOrder(queue: seq<Ticket>, max: nat, room: Room)
    requires max >= 1
  {
    InSameRoom(Sent(queue, max), room) + InSameRoom(Kept(queue, max), room) == InSameRoom(queue, room)
  }

  /** The guard: the room has no jobs to put back, or none behind the first batch. */
  predicate NotOvertaken(queue: seq<Ticket>, max: nat, room: Room) {
    var n := Min(max, |queue|);
    || (queue != [] && queue[0].job.room == room)
    || InSameRoom(queue[..n], room) == [] || InSameRoom(queue[n..], room) == []
  }

  lemma SwapDiffers(x: seq<Ticket>, y: seq<Ticket>)
    requires Distinct(x + y) && x != [] && y != []
    ensures x + y != y + x
  {
    assert (x + y)[0] == x[0] && (x + y)[|x|] == y[0] && (y + x)[0] == y[0];
  }

  lemma {:induction false} RoomDistinct(jobs: seq<Ticket>, room: Room)
    requires Distinct(jobs)
    ensures Distinct(InSameRoom(jobs, room)) && forall t | t in InSameRoom(jobs, room) :: t in jobs
  {
    if jobs != [] {
      RoomDistinct(jobs[..|jobs| - 1], room);
      var front := InSameRoom(jobs[..|jobs| - 1], room);
      forall i | 0 <= i < |front| ensures front[i] != jobs[|jobs| - 1] {
        assert front[i] in jobs[..|jobs| - 1];
      }
    }
  }

  /** A flush keeps a room's jobs in the order of arrival if and only if it is the room that
      is sent, or has no jobs both in the first batch and behind it: jobs that are looked at
      but not sent are put behind later ones of their own room. */
  lemma RoomOrderExactly(queue: seq<Ticket>, max: nat, room: Room)
    requires max >= 1 && Distinct(queue)
    ensures RoomInOrder(queue, max, room) <==> NotOvertaken(queue, max, room)
  {
    hide InSameRoom, InOtherRooms;
    if queue == [] { NothingQueued(max, room); return; }
    var n, first := Min(max, |queue|), queue[0].job.room;
    var x, y := InSameRoom(queue[..n], room), InSameRoom(queue[n..], room);
    assert queue == queue[..n] + queue[n..];
    InSameRoomConcat(queue[..n], queue[n..], room);
    InSameRoomConcat(queue[n..], InOtherRooms(queue[..n], first), room);
    RoomWithin(queue[..n], first, room);
    RoomDistinct(queue, room);
    if room != first && x != [] && y != [] {
      SwapDiffers(x, y);
    } else {
      assert room != first ==> x + y == y + x;
    }
  }

  lemma NothingQueued(max: nat, room: Room)
    requires max >= 1
    ensures RoomInOrder([], max, room) && NotOvertaken([], max, room)
  {
  }

  /** With batches of two, a job of the second room is overtaken by the next one. */
  lemma FlushCanReorder(a: Ticket, b: Ticket, later: Ticket)
    requires a.job.room == 0 && b.job.room == later.job.room == 1 && b != later
    ensures Sent([a, b, later], 2) == [a] && Kept([a, b, later], 2) == [later, b]
  {
    var queue := [a, b, later];
    assert queue[..2] == [a] + [b] && queue[2..] == [later];
    assert InSameRoom([], 0) == [] && InOtherRooms([], 0) == [];
    InSameRoomPush([], a, 0);
    InSameRoomPush([a], b, 0);
    assert [a][..0] == [] && ([a] + [b])[..1] == [a];
    assert InOtherRooms([a], 0) == [];
    assert InOtherRooms([a] + [b], 0) == [b];
  }

  /** A lone job travels by itself, and so does each of several once the route is known to be
      missing; otherwise they travel together. */
  lemma OnTheWire(tickets: seq<Ticket>, routeMissing: bool)
    ensures var flights := Launch(tickets, routeMissing);
            if |tickets| <= 1 || routeMissing
            then |flights| == |tickets| && forall i | 0 <= i < |tickets| :: flights[i] == One(tickets[i])
            else flights == [Many(tickets)]
  {
    SinglesInOrder(tickets);
  }

  lemma NothingToLaunch(routeMissing: bool)
    ensures Launch([], routeMissing) == []
  {
  }

  lemma {:induction false} SinglesInOrder(tickets: seq<Ticket>)
    ensures |Singles(tickets)| == |tickets| && forall i | 0 <= i < |tickets| :: Singles(tickets)[i] == One(tickets[i])
  {
    if tickets != [] {
      SinglesInOrder(tickets[..|tickets| - 1]);
    }
  }

  lemma AllAboardSnoc(front: seq<Flight>, f: Flight)
    ensures AllAboard(front + [f]) == AllAboard(front) + Aboard(f)
  {
    assert (front + [f])[..|front|] == front;
  }

  lemma AllAboardConcatSnoc(a: seq<Flight>, front: seq<Flight>, f: Flight)
    requires AllAboard(a + front) == AllAboard(a) + AllAboard(front)
    ensures AllAboard(a + (front + [f])) == AllAboard(a) + AllAboard(front + [f])
  {
    ConcatAssoc(a, front, [f]);
    AllAboardSnoc(a + front, f);
    AllAboardSnoc(front, f);
  }

  lemma {:induction false} AllAboardConcat(a: seq<Flight>, b: seq<Flight>)
    ensures AllAboard(a + b) == AllAboard(a) + AllAboard(b)
  {
    if b == [] {
      assert a + b == a;
    } else {
      AllAboardConcat(a, b[..|b| - 1]);
      AllAboardConcatSnoc(a, b[..|b| - 1], b[|b| - 1]);
      SplitLast(b);
    }
  }

  lemma {:induction false} SinglesAboard(ts: seq<Ticket>)
    ensures AllAboard(Singles(ts)) == multiset(ts)
  {
    if ts != [] {
      SinglesAboard(ts[..|ts| - 1]);
      assert ts == ts[..|ts| - 1] + [ts[|ts| - 1]];
      assert Singles(ts)[..|Singles(ts)| - 1] == Singles(ts[..|ts| - 1]);
    }
  }

  lemma LaunchAboard(ts: seq<Ticket>, routeMissing: bool)
    ensures AllAboard(Launch(ts, routeMissing)) == multiset(ts)
  {
    SinglesAboard(ts);
    var one := [Many(ts)];
    assert one[..0] == [];
  }

  lemma RemoveAboard(flying: seq<Flight>, i: nat)
    requires i < |flying|
    ensures AllAboard(flying) == AllAboard(Remove(flying, i)) + Aboard(flying[i])
  {
    var a, f, b := flying[..i], flying[i], flying[i + 1..];
    SplitAt(flying, i);
    AllAboardConcat(a + [f], b);
    AllAboardSnoc(a, f);
    AllAboardConcat(a, b);
  }

  /** Whatever comes back, each job of the flight is settled once or sent again once. */
  lemma ResponseConserves(f: Flight, r: Response)
    ensures multiset(Owners(Settlements(f, r))) + AllAboard(Relaunched(f, r)) == Aboard(f)
  {
    match f
    case One(t) =>
      assert Owners(Settlements(f, r)) == [t];
    case Many(ts) =>
      SinglesAboard(ts);
      if !r.Malformed? {
        assert Owners(Settlements(f, r)) == ts;
      }
  }

  /** Every job submitted is queued, in flight or settled, and none is there twice. */
  ghost predicate Conserved(queue: seq<Ticket>, flying: seq<Flight>, settled: seq<Settled>, submitted: seq<Ticket>) {
    multiset(queue) + AllAboard(flying) + multiset(Owners(settled)) == multiset(submitted)
  }

  ghost predicate Inv(s: State) {
    && Conserved(s.queue, s.flying, s.settled, s.submitted)
    && (s.flushScheduled <==> s.queue != [])
    && (forall k | 0 <= k < |s.submitted| :: s.submitted[k].no == k)
  }

  lemma SubmitConserves(s: State, t: Ticket)
    requires Conserved(s.queue, s.flying, s.settled, s.submitted)
    ensures Conserved(s.queue + [t], s.flying, s.settled, s.submitted + [t])
  {
  }

  lemma FlushConserves(s: State, max: nat)
    requires max >= 1 && s.queue != [] && Conserved(s.queue, s.flying, s.settled, s.submitted)
    ensures Conserved(Kept(s.queue, max), s.flying + Launch(Sent(s.queue, max), s.routeMissing), s.settled, s.submitted)
  {
    FlushSplits(s.queue, max);
    LaunchAboard(Sent(s.queue, max), s.routeMissing);
    AllAboardConcat(s.flying, Launch(Sent(s.queue, max), s.routeMissing));
  }

  lemma OwnersConcat(a: seq<Settled>, b: seq<Settled>)
    ensures multiset(Owners(a + b)) == multiset(Owners(a)) + multiset(Owners(b))
  {
    assert Owners(a + b) == Owners(a) + Owners(b);
  }

  lemma RespondConserves(s: State, i: nat, r: Response)
    requires i < |s.flying| && Conserved(s.queue, s.flying, s.settled, s.submitted)
    ensures var f := s.flying[i];
            Conserved(s.queue, Remove(s.flying, i) + Relaunched(f, r), s.settled + Settlements(f, r), s.submitted)
  {
    var f := s.flying[i];
    RemoveAboard(s.flying, i);
    AllAboardConcat(Remove(s.flying, i), Relaunched(f, r));
    ResponseConserves(f, r);
    OwnersConcat(s.settled, Settlements(f, r));
  }

  lemma StepKeepsInv(s: State, max: nat, e: Event)
    requires max >= 1 && Inv(s)
    ensures Inv(Step(s, max, e))
  {
    hide Conserved, Launch, Sent, Kept, Settlements, Relaunched;
    match e
    case Submit(job) => SubmitConserves(s, Ticket(|s.submitted|, job));
    case Flush => if s.flushScheduled { FlushConserves(s, max); }
    case Respond(i, r) => if i < |s.flying| { RespondConserves(s, i, r); }
  }

  /** Conservation: in every run the jobs queued, in flight and settled are exactly the
      jobs submitted, and a waiting job always has a flush scheduled. */
  lemma {:induction false} NoJobLostOrDoubled(max: nat, events: seq<Event>)
    requires max >= 1
    ensures Inv(Run(max, events))
  {
    if events != [] {
      NoJobLostOrDoubled(max, events[..|events| - 1]);
      StepKeepsInv(Run(max, events[..|events| - 1]), max, events[|events| - 1]);
    }
  }

  lemma {:induction false} NumberedOnce(ts: seq<Ticket>, t: Ticket)
    requires forall k | 0 <= k < |ts| :: ts[k].no == k
    ensures multiset(ts)[t] <= 1
  {
    if ts != [] {
      NumberedOnce(ts[..|ts| - 1], t);
      assert ts == ts[..|ts| - 1] + [ts[|ts| - 1]];
      if ts[|ts| - 1] == t && t in ts[..|ts| - 1] {
        assert false;
      }
    }
  }

  /** Each job settles at most once, and not while it is still queued or in flight. */
  lemma SettlesOnce(max: nat, events: seq<Event>, t: Ticket)
    requires max >= 1
    ensures var s := Run(max, events);
            && multiset(Owners(s.settled))[t] <= 1
            && (t in Owners(s.settled) ==> t !in s.queue && t !in AllAboard(s.flying) && t in s.submitted)
  {
    NoJobLostOrDoubled(max, events);
    var s := Run(max, events);
    NumberedOnce(s.submitted, t);
    assert multiset(s.submitted)[t] == multiset(s.queue)[t] + AllAboard(s.flying)[t] + multiset(Owners(s.settled))[t];
  }

  lemma AloneInQueue(t: Ticket, max: nat)
    requires max >= 1
    ensures Sent([t], max) == [t] && Kept([t], max) == []
  {
    var one := [t];
    assert Min(max, 1) == 1;
    assert one[..1] == one && one[1..] == [];
    assert InSameRoom(one[..0], t.job.room) == [] && InOtherRooms(one[..0], t.job.room) == [];
    assert InSameRoom(one, t.job.room) == [t] && InOtherRooms(one, t.job.room) == [];
  }

  /** A job submitted while nothing waits goes out by itself with the next flush and is
      settled with what comes back for it. */
  lemma LoneJobSettles(s: State, max: nat, job: Job, r: Response)
    requires max >= 1 && Inv(s) && s.queue == []
    ensures var t := Ticket(|s.submitted|, job);
            var sent := Step(Step(s, max, Submit(job)), max, Flush);
            var done := Step(sent, max, Respond(|s.flying|, r));
            && sent.queue == [] && sent.flying == s.flying + [One(t)]
            && done == s.(submitted := s.submitted + [t], settled := done.settled)
            && done.settled == s.settled + [Settled(t, if r.Results? && r.results != [] then r.results[0] else Refused)]
  {
    hide Launch;
    var t := Ticket(|s.submitted|, job);
    AloneInQueue(t, max);
    OnTheWire([t], s.routeMissing);
    assert Launch([t], s.routeMissing) == [One(t)];
    var asked := Step(s, max, Submit(job));
    assert asked.queue == [t];
    var sent := Step(asked, max, Flush);
    assert Remove(sent.flying, |s.flying|) == s.flying;
  }

  /** The batch route answered in a way the backend does not know, at some point of the run. */
  predicate RouteFell(max: nat, events: seq<Event>)
    requires max >= 1
  {
    events != []
    && (var front, e := events[..|events| - 1], events[|events| - 1];
        RouteFell(max, front)
        || (e.Respond? && e.r.Malformed? && e.i < |Run(max, front).flying| && Run(max, front).flying[e.i].Many?))
  }

  /** That, and only that, switches the batch route off, and for good. */
  lemma {:induction false} RouteMissingExactly(max: nat, events: seq<Event>)
    requires max >= 1
    ensures Run(max, events).routeMissing <==> RouteFell(max, events)
  {
    hide Launch, Sent, Kept, Settlements, Relaunched;
    if events != [] {
      RouteMissingExactly(max, events[..|events| - 1]);
    }
  }

  /** Without further submissions |queue| flushes empty the queue, however rooms mix. */
  function FlushTimes(queue: seq<Ticket>, max: nat, n: nat): seq<Ticket>
    requires max >= 1
  {
    if n == 0 then queue else Kept(FlushTimes(queue, max, n - 1), max)
  }

  lemma {:induction false} QueueDrains(queue: seq<Ticket>, max: nat, n: nat)
    requires max >= 1
    ensures |FlushTimes(queue, max, n)| <= Max(0, |queue| - n)
  {
    hide Sent, InOtherRooms;
    if n > 0 {
      QueueDrains(queue, max, n - 1);
      if FlushTimes(queue, max, n - 1) != [] {
        FlushSplits(FlushTimes(queue, max, n - 1), max);
      }
    }
  }

  // ---- the batch route -------------------------------------------------------

  /** An entry as the route receives it; `wellFormed` is its check of sender, kind and id. */
  datatype Received = Received(entry: Entry, wellFormed: bool)

  /** The appends the route queues: the well-formed entries, in order. */
  function Queued(room: Room, entries: seq<Received>): seq<Job> {
    if entries == [] then []
    else
      var front, last := Queued(room, entries[..|entries| - 1]), entries[|entries| - 1];
      if last.wellFormed then front + [Job(room, last.entry)] else front
  }

  function AsResult(o: Outcome): Result {
    if o.Failed? then Refused else Accepted(o.row.id, o.row.num, o.Duplicate?)
  }

  /** The results by position: refused at once, or what the queued append came to. */
  function RouteResults(room: Room, entries: seq<Received>, outcomes: seq<Outcome>): seq<Result>
    requires |outcomes| == |Queued(room, entries)|
  {
    if entries == [] then []
    else
      var front, last := entries[..|entries| - 1], entries[|entries| - 1];
      if last.wellFormed
      then RouteResults(room, front, outcomes[..|outcomes| - 1]) + [AsResult(outcomes[|outcomes| - 1])]
      else RouteResults(room, front, outcomes) + [Refused]
  }

  lemma {:induction false} RouteResultsByPosition(room: Room, entries: seq<Received>, outcomes: seq<Outcome>, i: nat)
    requires |outcomes| == |Queued(room, entries)| && i < |entries|
    ensures |RouteResults(room, entries, outcomes)| == |entries|
    ensures !entries[i].wellFormed ==> RouteResults(room, entries, outcomes)[i] == Refused
    ensures entries[i].wellFormed ==>
              var k := |Queued(room, entries[..i])|;
              && k < |outcomes| && Queued(room, entries)[k] == Job(room, entries[i].entry)
              && RouteResults(room, entries, outcomes)[i] == AsResult(outcomes[k])
  {
    var n := |entries| - 1;
    var front, last := entries[..n], entries[n];
    var fewer := if last.wellFormed then outcomes[..|outcomes| - 1] else outcomes;
    if i < n {
      RouteResultsByPosition(room, front, fewer, i);
      assert front[..i] == entries[..i];
    } else {
      if n > 0 { RouteResultsByPosition(room, front, fewer, 0); }
      if last.wellFormed {
        assert Queued(room, entries)[|outcomes| - 1] == Job(room, entries[i].entry);
      }
    }
  }

  /** What the caller of job `k` has to be told, when `after` is the table all the jobs leave:
      accepted exactly when its message is stored and it is new or the retry could be logged,
      with the number of the one row of its id, and as a duplicate exactly when it is one. */
  ghost predicate ToldRight(rows: seq<Row>, jobs: seq<Job>, k: nat, after: seq<Row>, result: Result)
    requires k < |jobs|
  {
    var e, taken := jobs[k].entry, IdTaken(rows, jobs, k);
    match result
    case Refused => if taken then !e.loggable else !e.storable
    case Accepted(id, num, duplicate) =>
      && (if taken then e.loggable else e.storable)
      && id == e.id && duplicate == taken
      && Find(after, id).Some? && Find(after, id).value.num == num
  }

  lemma AsResultIsRight(rows: seq<Row>, jobs: seq<Job>, k: nat)
    requires Consistent(rows) && k < |jobs|
    ensures var a := Apply(rows, jobs); ToldRight(rows, jobs, k, a.rows, AsResult(a.outcomes[k]))
  {
    hide Apply, Consistent, IdTaken;
    AnsweredExactly(rows, jobs, k);
    AnswersAgreeWithTable(rows, jobs, k);
  }

  /** Each caller is told about its own entry, whatever other callers' appends the same
      transaction holds before and after the batch: a malformed entry is refused, and any
      other settles as the one job it became. */
  lemma EachGetsItsOwnResult(rows: seq<Row>, room: Room, tickets: seq<Ticket>, entries: seq<Received>,
                             before: seq<Job>, after: seq<Job>, i: nat)
    requires Consistent(rows) && |entries| == |tickets| && i < |tickets|
    requires forall k | 0 <= k < |tickets| :: tickets[k].job == Job(room, entries[k].entry)
    ensures var n := |Queued(room, entries)|;
            var jobs := before + Queued(room, entries) + after;
            var a := Apply(rows, jobs);
            var outcomes := a.outcomes[|before|..|before| + n];
            var settled := Settlements(Many(tickets), Results(RouteResults(room, entries, outcomes)))[i];
            var at := |before| + |Queued(room, entries[..i])|;
            && settled.ticket == tickets[i]
            && (!entries[i].wellFormed ==> settled.result == Refused)
            && (entries[i].wellFormed ==>
                  && at < |jobs| && jobs[at] == tickets[i].job
                  && ToldRight(rows, jobs, at, a.rows, settled.result))
  {
    hide Apply, ToldRight, Consistent, Queued, RouteResults, AsResult;
    var jobs := before + Queued(room, entries) + after;
    var n := |Queued(room, entries)|;
    var outcomes := Apply(rows, jobs).outcomes[|before|..|before| + n];
    RouteResultsByPosition(room, entries, outcomes, i);
    if entries[i].wellFormed {
      var k := |Queued(room, entries[..i])|;
      assert jobs[|before| + k] == Queued(room, entries)[k];
      assert outcomes[k] == Apply(rows, jobs).outcomes[|before| + k];
      AsResultIsRight(rows, jobs, |before| + k);
    }
  }

  /** The answer of the single route: an entry that is malformed, or whose append failed, is
      an error there. */
  function SingleResponse(wellFormed: bool, o: Outcome): Response {
    if !wellFormed || o.Failed? then NoAnswer else Results([AsResult(o)])
  }

  /** So is a job that travelled alone. */
  lemma LoneJobGetsItsResult(rows: seq<Row>, t: Ticket, wellFormed: bool, before: seq<Job>, after: seq<Job>)
    requires Consistent(rows)
    ensures var jobs := before + [t.job] + after;
            var a := Apply(rows, jobs);
            var settled := Settlements(One(t), SingleResponse(wellFormed, a.outcomes[|before|]));
            && |settled| == 1 && settled[0].ticket == t
            && (!wellFormed ==> settled[0].result == Refused)
            && (wellFormed ==> ToldRight(rows, jobs, |before|, a.rows, settled[0].result))
  {
    hide Apply, ToldRight, Consistent;
    AsResultIsRight(rows, before + [t.job] + after, |before|);
  }
}
