/**
 * The live feed of one backend, kept ready as bytes (app/server.js:375-422, 487-547)
 * and fed by the firehose, by polling and by loading (lines 510-527, 555-583, 609-617).
 */
module FeedBuffer {
  import opened Common
  import opened MessageTable
  import opened FeedModel
  import opened FeedBytes

  /** `render` stands for the JSON text of one row. */
  function Rendered(render: Row -> seq<byte>, rows: seq<Row>): (r: seq<seq<byte>>)
    ensures |r| == |rows|
  {
    seq(|rows|, i requires 0 <= i < |rows| => render(rows[i]))
  }

  ghost predicate LaidOut(bytes: seq<byte>, offsets: seq<nat>, parts: seq<seq<byte>>) {
    bytes == Join(parts) && offsets == Starts(parts)
  }

  /** A row as it is written: preceded by a comma unless it is the first. */
  function Separated(first: bool, text: seq<byte>): seq<byte> {
    if first then text else [COMMA] + text
  }

  lemma LaidOutPush(bytes: seq<byte>, offsets: seq<nat>, parts: seq<seq<byte>>, text: seq<byte>)
    requires LaidOut(bytes, offsets, parts)
    ensures var first := parts == [];
            LaidOut(bytes + Separated(first, text), offsets + [|bytes| + if first then 0 else 1], parts + [text])
  {
    JoinPush(parts, text);
    assert bytes + ([COMMA] + text) == bytes + [COMMA] + text;
  }

  lemma RenderedPush(render: Row -> seq<byte>, history: seq<Row>, count: nat, row: Row)
    requires count <= |history|
    ensures Rendered(render, LastN(history + [row], count + 1)) == Rendered(render, LastN(history, count)) + [render(row)]
  {
    assert LastN(history + [row], count + 1) == LastN(history, count) + [row];
  }

  lemma RenderedTrim(render: Row -> seq<byte>, history: seq<Row>, count: nat, keep: nat)
    requires keep <= count <= |history|
    ensures Rendered(render, LastN(history, keep)) == Rendered(render, LastN(history, count))[count - keep..]
  {
    assert LastN(history, keep) == LastN(history, count)[count - keep..];
  }

  /** row.copy(feedBuf, feedLen) */
  method WriteAt(buf: array<byte>, at: nat, text: seq<byte>)
    requires at + |text| <= buf.Length
    modifies buf
    ensures buf[..at + |text|] == old(buf[..at]) + text
  {
    forall i | 0 <= i < |text| {
      buf[at + i] := text[i];
    }
    assert buf[..at] == old(buf[..at]);
    assert buf[at..at + |text|] == text;
    assert buf[..at + |text|] == buf[..at] + buf[at..at + |text|];
  }

  /** feedBuf.copy(feedBuf, 0, from, len): the ranges may overlap. */
  method MoveDown(buf: array<byte>, from: nat, len: nat)
    requires from <= len <= buf.Length
    modifies buf
    ensures buf[..len - from] == old(buf[..len])[from..]
  {
    forall i | 0 <= i < len - from {
      buf[i] := buf[from + i];
    }
  }

  lemma SameFeed(a: Feed, b: Feed)
    requires a.history == b.history && a.seen == b.seen
    requires a.count == b.count && a.lastNum == b.lastNum && a.total == b.total
    ensures a == b
  {
  }

  class LiveFeed {
    const feedMax: nat
    const feedBytes: nat
    const render: Row -> seq<byte>
    var buf: array<byte>
    var len: nat
    var offsets: seq<nat>
    var count: nat
    var total: nat
    var seen: seq<Id>
    var lastNum: nat
    var pollNum: nat
    var ready: bool
    ghost var history: seq<Row>

    ghost function View(): Feed
      reads this
    {
      Feed(history, seen, count, lastNum, total)
    }

    ghost function Parts(): seq<seq<byte>>
      reads this
    {
      Rendered(render, LastN(history, count))
    }

    /** The bytes in use are the comma-join of the rows held; the offsets say where each starts. */
    ghost predicate Valid()
      reads this, buf
    {
      && feedMax >= 1 && buf.Length >= 1
      && len <= buf.Length
      && count <= |history|
      && LaidOut(buf[..len], offsets, Parts())
    }

    constructor (feedMax: nat, feedBytes: nat, render: Row -> seq<byte>, initial: nat)
      requires feedMax >= 1 && initial >= 1
      ensures Valid() && fresh(buf) && View() == EMPTY && pollNum == 0 && !ready
      ensures this.feedMax == feedMax && this.feedBytes == feedBytes && this.render == render
    {
      this.feedMax, this.feedBytes, this.render := feedMax, feedBytes, render;
      buf := new byte[initial](_ => 0);
      len, offsets, count, total, seen, lastNum := 0, [], 0, 0, [], 0;
      pollNum, ready, history := 0, false, [];
    }

    /** Room for `need` more bytes, doubling until they fit. */
    method FeedGrow(need: nat)
      requires buf.Length >= 1 && len <= buf.Length
      modifies this`buf
      ensures len + need <= buf.Length && buf.Length >= 1
      ensures buf == old(buf) || fresh(buf)
      ensures buf[..len] == old(buf[..len])
    {
      if len + need <= buf.Length {
        return;
      }
      var size := buf.Length;
      while size < len + need
        invariant size >= buf.Length >= 1
        decreases len + need - size
      {
        size := size * 2;
      }
      var next := new byte[size](_ => 0);
      forall i | 0 <= i < len {
        next[i] := buf[i];
      }
      assert next[..len] == buf[..len];
      buf := next;
    }

    /** Cut the oldest rows off so that `feedMax` remain. */
    method FeedTrim()
      requires Valid()
      modifies this`len, this`offsets, this`count, buf
      ensures Valid()
      ensures count == Min(old(count), feedMax)
    {
      hide Join, Start;
      if count <= feedMax {
        return;
      }
      var drop := count - feedMax;
      ghost var parts := Parts();
      TrimMatches(parts, drop);
      var from := offsets[drop];
      MoveDown(buf, from, len);
      len := len - from;
      offsets := Shifted(offsets, drop);
      count := count - drop;
      RenderedTrim(render, history, old(count), count);
    }

    method WriteText(text: seq<byte>)
      requires buf.Length >= 1 && len <= buf.Length
      modifies this`buf, this`len, buf
      ensures buf.Length >= 1 && len <= buf.Length && (buf == old(buf) || fresh(buf))
      ensures buf[..len] == old(buf[..len]) + text
    {
      FeedGrow(|text|);
      WriteAt(buf, len, text);
      len := len + |text|;
    }

    /** Write one row after a separating comma. */
    method PushRow(row: Row)
      requires Valid()
      modifies this`buf, this`len, this`offsets, this`count, this`history, buf
      ensures Valid() && (buf == old(buf) || fresh(buf))
      ensures count == old(count) + 1 && history == old(history) + [row]
    {
      hide LaidOut, Separated;
      ghost var bytes, parts := buf[..len], Parts();
      LaidOutPush(bytes, offsets, parts, render(row));
      RenderedPush(render, history, count, row);
      offsets := offsets + [len + if count > 0 then 1 else 0];
      WriteText(Separated(count == 0, render(row)));
      history := history + [row];
      count := count + 1;
      assert Parts() == parts + [render(row)];
      assert LaidOut(buf[..len], offsets, parts + [render(row)]);
    }

    /** Guard the new row's id, forgetting the oldest ids once there are too many. */
    method NoteRow(row: Row)
      requires Valid()
      modifies this`total, this`seen, this`lastNum
      ensures Valid()
      ensures total == old(total) + 1 && lastNum == Max(old(lastNum), row.num)
      ensures var more := old(seen) + [row.id];
              seen == if |more| > feedMax * 2 then LastN(more, feedMax) else more
    {
      total := total + 1;
      seen := seen + [row.id];
      if row.num > lastNum {
        lastNum := row.num;
      }
      if |seen| > feedMax * 2 {
        seen := LastN(seen, feedMax);
      }
    }

    /** Take a row whose id is not guarded, trimming when a whole block is over. */
    method AppendNew(row: Row)
      requires Valid()
      modifies this`buf, this`len, this`offsets, this`count, this`total, this`seen, this`lastNum, this`history, buf
      ensures Valid() && (buf == old(buf) || fresh(buf))
      ensures View() == AcceptNew(old(View()), feedMax, row)
    {
      hide LaidOut, Rendered;
      PushRow(row);
      NoteRow(row);
      if count > feedMax + feedMax / 16 {
        FeedTrim();
      }
      SameFeed(View(), AcceptNew(old(View()), feedMax, row));
    }

    /** Offer one row.  The new state is `Accept` of the old one, byte for byte. */
    method FeedAppend(row: Row)
      requires Valid()
      modifies this`buf, this`len, this`offsets, this`count, this`total, this`seen, this`lastNum, this`history, buf
      ensures Valid() && (buf == old(buf) || fresh(buf))
      ensures View() == Accept(old(View()), feedMax, row)
    {
      if row.id == NO_ID || row.id in seen {
        return;
      }
      AppendNew(row);
    }

    /** The newest rows that fit in `feedBytes`, as a slice of the buffer. */
    method FeedWindow() returns (start: nat, end: nat, rows: nat)
      requires Valid()
      ensures start <= end <= buf.Length && rows <= count
      ensures buf[start..end] == Join(LastN(Parts(), rows))
      ensures end - start <= feedBytes || rows == 1
      ensures count > 0 ==> rows >= 1
      ensures forall m | rows < m <= count :: |Join(LastN(Parts(), m))| > feedBytes
    {
      if len <= feedBytes || count == 0 {
        return 0, len, count;
      }
      ghost var parts := Parts();
      var lo := FirstFitting(offsets, len, feedBytes, parts);
      JoinFrom(parts, lo);
      start, end, rows := offsets[lo], len, count - lo;
      assert buf[start..end] == buf[..len][start..];
      assert LastN(parts, rows) == parts[lo..];
      forall m | rows < m <= count ensures |Join(LastN(parts, m))| > feedBytes {
        assert LastN(parts, m) == parts[count - m..];
        assert TooLong(parts, count - m, feedBytes);
      }
    }

    /** One firehose message of the public room. */
    method OnFirehoseEntry(row: Row)
      requires Valid()
      modifies this, buf
      ensures Valid() && (buf == old(buf) || fresh(buf)) && ready == old(ready)
      ensures View() == Arrive(old(View()), feedMax, Firehose(row))
      ensures pollNum == if old(ready) && row.num == old(pollNum) + 1 then row.num else old(pollNum)
    {
      FeedAppend(row);
      if ready && row.num == pollNum + 1 {
        pollNum := row.num;
      }
    }

    /** The loop both `feedPollOnce` and `feedLoad` run over the rows they received. */
    method TakeRows(messages: seq<Row>)
      requires Valid()
      modifies this, buf
      ensures Valid() && (buf == old(buf) || fresh(buf)) && ready == old(ready)
      ensures View() == AcceptAll(old(View()), feedMax, messages)
      ensures pollNum == HighestOf(old(pollNum), messages)
    {
      hide LaidOut, Rendered, Accept, LastN;
      for k := 0 to |messages|
        invariant Valid() && (buf == old(buf) || fresh(buf)) && ready == old(ready)
        invariant View() == AcceptAll(old(View()), feedMax, messages[..k])
        invariant pollNum == HighestOf(old(pollNum), messages[..k])
      {
        assert messages[..k + 1][..k] == messages[..k];
        FeedAppend(messages[k]);
        if messages[k].num > pollNum {
          pollNum := messages[k].num;
        }
      }
      assert messages[..|messages|] == messages;
    }

    /** The reply to a poll arrives. */
    method FeedPollReturn(messages: seq<Row>, reported: nat)
      requires Valid()
      modifies this, buf
      ensures Valid() && (buf == old(buf) || fresh(buf)) && ready == old(ready)
      ensures View() == Arrive(old(View()), feedMax, PollReply(messages, reported))
      ensures pollNum == HighestOf(old(pollNum), messages)
    {
      TakeRows(messages);
      if reported > total {
        total := reported;
      }
    }

    /** The reply to the initial load, or to a catch-up after a reconnect, arrives. */
    method FeedLoadReturn(messages: seq<Row>, reported: nat)
      requires Valid()
      modifies this, buf
      ensures Valid() && (buf == old(buf) || fresh(buf)) && ready
      ensures View() == Arrive(old(View()), feedMax, LoadReply(messages, reported))
      ensures pollNum == HighestOf(old(pollNum), messages)
    {
      TakeRows(messages);
      total := Max(reported, count);
      ready := true;
    }
  }

  /** The rows from `k` on do not fit in `limit` bytes. */
  ghost predicate TooLong(parts: seq<seq<byte>>, k: nat, limit: nat)
    requires k < |parts|
  {
    |Join(parts[k..])| > limit
  }

  lemma EarlierTooLong(parts: seq<seq<byte>>, mid: nat, limit: nat)
    requires mid < |parts| && TooLong(parts, mid, limit)
    ensures forall k | 0 <= k <= mid :: TooLong(parts, k, limit)
  {
    forall k | 0 <= k <= mid ensures TooLong(parts, k, limit) {
      JoinShrinks(parts, k, mid);
    }
  }

  /** Bisection on the row offsets: the first row whose suffix fits in `limit` bytes, or
      the last row when none does. */
  method FirstFitting(offsets: seq<nat>, len: nat, limit: nat, ghost parts: seq<seq<byte>>) returns (lo: nat)
    requires parts != [] && offsets == Starts(parts) && len == |Join(parts)|
    ensures lo < |parts|
    ensures !TooLong(parts, lo, limit) || lo == |parts| - 1
    ensures forall k | 0 <= k < lo :: TooLong(parts, k, limit)
  {
    lo := 0;
    var hi := |offsets| - 1;
    while lo < hi
      invariant 0 <= lo <= hi < |parts|
      invariant forall k | 0 <= k < lo :: TooLong(parts, k, limit)
      invariant hi == |parts| - 1 || !TooLong(parts, hi, limit)
    {
      var mid := (lo + hi) / 2;
      SuffixLength(parts, mid);
      if len - offsets[mid] <= limit {
        hi := mid;
      } else {
        EarlierTooLong(parts, mid, limit);
        lo := mid + 1;
      }
    }
  }

  lemma SuffixLength(parts: seq<seq<byte>>, i: nat)
    requires i < |parts|
    ensures |Join(parts)| - Starts(parts)[i] == |Join(parts[i..])|
  {
    JoinFrom(parts, i);
  }
}
