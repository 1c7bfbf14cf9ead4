/**
 * The comma-joined row bytes a backend serves, and where each row starts in them.
 */
module FeedBytes {
  newtype byte = i: int | 0 <= i < 0x100

  const COMMA: byte := 44

  function Join(parts: seq<seq<byte>>): seq<byte> {
    if parts == [] then []
    else if |parts| == 1 then parts[0]
    else Join(parts[..|parts| - 1]) + [COMMA] + parts[|parts| - 1]
  }

  /** Offset of row `i` in the join: past the rows before it and past its comma. */
  function Start(parts: seq<seq<byte>>, i: nat): nat
    requires i <= |parts|
  {
    if i == 0 then 0 else |Join(parts[..i])| + 1
  }

  function Starts(parts: seq<seq<byte>>): (r: seq<nat>)
    ensures |r| == |parts|
  {
    seq(|parts|, i requires 0 <= i < |parts| => Start(parts, i))
  }

  lemma JoinOneMore(parts: seq<seq<byte>>, row: seq<byte>)
    ensures Join(parts + [row]) == if parts == [] then row else Join(parts) + [COMMA] + row
  {
    assert (parts + [row])[..|parts|] == parts;
  }

  lemma JoinPush(parts: seq<seq<byte>>, row: seq<byte>)
    ensures Join(parts + [row]) == if parts == [] then row else Join(parts) + [COMMA] + row
    ensures Starts(parts + [row]) == Starts(parts) + [if parts == [] then 0 else |Join(parts)| + 1]
  {
    hide Join;
    JoinOneMore(parts, row);
    assert (parts + [row])[..|parts|] == parts;
    forall i | 0 <= i < |parts|
      ensures Start(parts + [row], i) == Start(parts, i)
    {
      assert (parts + [row])[..i] == parts[..i];
    }
  }

  lemma JoinSplitSnoc(front: seq<seq<byte>>, i: nat, last: seq<byte>)
    requires 0 < i < |front| && Join(front) == Join(front[..i]) + [COMMA] + Join(front[i..])
    ensures var parts := front + [last];
      Join(parts) == Join(parts[..i]) + [COMMA] + Join(parts[i..])
  {
    hide Join;
    var parts := front + [last];
    assert parts[..i] == front[..i];
    assert parts[i..] == front[i..] + [last];
    JoinPush(front, last);
    JoinPush(front[i..], last);
    Regroup(Join(front[..i]), Join(front[i..]), last);
  }

  lemma Regroup(a: seq<byte>, b: seq<byte>, c: seq<byte>)
    ensures (a + [COMMA] + b) + [COMMA] + c == a + [COMMA] + (b + [COMMA] + c)
  {
  }

  lemma {:induction false} JoinSplit(parts: seq<seq<byte>>, i: nat)
    requires 0 < i < |parts|
    ensures Join(parts) == Join(parts[..i]) + [COMMA] + Join(parts[i..])
    decreases |parts|
  {
    var n := |parts| - 1;
    var front := parts[..n];
    if i < n {
      hide Join;
      JoinSplit(front, i);
      JoinSplitSnoc(front, i, parts[n]);
      assert parts == front + [parts[n]];
    } else {
      assert parts[i..] == [parts[n]];
    }
  }

  /** What lies from the start of row `i` on is the join of the rows from `i` on: a
      suffix of the buffer is itself a row list, with no leading comma. */
  lemma JoinFrom(parts: seq<seq<byte>>, i: nat)
    requires i < |parts|
    ensures Start(parts, i) <= |Join(parts)|
    ensures Join(parts)[Start(parts, i)..] == Join(parts[i..])
  {
    if i > 0 {
      JoinSplit(parts, i);
    } else {
      assert parts[i..] == parts;
    }
  }

  lemma SliceOfSlice<T>(s: seq<T>, from: nat, n: nat)
    requires from + n <= |s|
    ensures s[..from + n][from..] == s[from..][..n]
  {
  }

  lemma StartsAfterDrop(parts: seq<seq<byte>>, drop: nat, i: nat)
    requires drop <= drop + i < |parts|
    ensures Start(parts, drop) <= Start(parts, drop + i)
    ensures Start(parts[drop..], i) == Start(parts, drop + i) - Start(parts, drop)
  {
    if drop == 0 {
      assert parts[drop..] == parts;
    } else if i > 0 {
      var head := parts[..drop + i];
      JoinSplit(head, drop);
      assert head[..drop] == parts[..drop];
      SliceOfSlice(parts, drop, i);
    }
  }

  /** Offsets once the first `drop` rows, and the bytes before row `drop`, are gone. */
  function Shifted(offsets: seq<nat>, drop: nat): (r: seq<nat>)
    requires drop < |offsets|
    requires forall i | drop <= i < |offsets| :: offsets[drop] <= offsets[i]
    ensures |r| == |offsets| - drop
  {
    seq(|offsets| - drop, i requires 0 <= i < |offsets| - drop => offsets[drop + i] - offsets[drop])
  }

  /** Trimming the bytes and the offsets trims the rows. */
  lemma TrimMatches(parts: seq<seq<byte>>, drop: nat)
    requires drop < |parts|
    ensures Start(parts, drop) <= |Join(parts)|
    ensures Join(parts)[Start(parts, drop)..] == Join(parts[drop..])
    ensures forall i | drop <= i < |parts| :: Starts(parts)[drop] <= Starts(parts)[i]
    ensures Shifted(Starts(parts), drop) == Starts(parts[drop..])
  {
    hide Join, Start;
    JoinFrom(parts, drop);
    forall i | drop <= i < |parts|
      ensures Starts(parts)[drop] <= Starts(parts)[i]
      ensures Start(parts[drop..], i - drop) == Starts(parts)[i] - Starts(parts)[drop]
    {
      StartsAfterDrop(parts, drop, i - drop);
    }
    var a, b := Shifted(Starts(parts), drop), Starts(parts[drop..]);
    forall i | 0 <= i < |a|
      ensures a[i] == b[i]
    {
      assert Start(parts[drop..], (drop + i) - drop) == Starts(parts)[drop + i] - Starts(parts)[drop];
    }
  }

  /** Dropping more rows leaves fewer bytes. */
  lemma JoinShrinks(parts: seq<seq<byte>>, i: nat, j: nat)
    requires i <= j < |parts|
    ensures |Join(parts[j..])| <= |Join(parts[i..])|
  {
    JoinFrom(parts, i);
    JoinFrom(parts, j);
    StartsAfterDrop(parts, i, j - i);
  }
}
