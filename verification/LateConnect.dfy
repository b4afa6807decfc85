/**
 Data may arrive before the upstream connection is ready; it then waits in the reorderer and is flushed.
 The log does not depend on when that happens.
 */
module LateConnect {
  import opened Basics
  import opened Reorder
  import opened ReorderGaps
  import opened Server
  import opened WriteQueue

  /** How a frame arrives: over which source, when, and what the clock shows while it is handled. */
  datatype Arrival = Arrival(src: Source, now: int, clock: nat -> int)

  /**
   Handle the frames in order on a new connection whose upstream becomes ready after the first `readyAt`
   of them; frame i arrives as `how[i]` says and the flush runs with the clock `ready`.
   */
  ghost function Feed(id: u32, src: Source, frames: seq<Entry>, how: seq<Arrival>, ready: nat -> int, readyAt: nat): Conn
    requires |how| >= |frames|
    decreases |frames|, 1
  {
    var c := Fill(id, src, frames, how, ready, readyAt);
    if readyAt == |frames| then OnReady(c, ready) else c
  }

  /** The same before the upstream becomes ready after the last frame. */
  ghost function Fill(id: u32, src: Source, frames: seq<Entry>, how: seq<Arrival>, ready: nat -> int, readyAt: nat): Conn
    requires |how| >= |frames|
    decreases |frames|, 0
  {
    if frames == [] then NewConn(id, 0, src, 0)
    else
      var n := |frames| - 1;
      OnArrival(Feed(id, src, frames[..n], how, ready, readyAt), frames[n], how[n])
  }

  ghost function OnArrival(c: Conn, f: Entry, a: Arrival): Conn {
    OnData(c, a.src, f.num, f.data, a.now, a.clock)
  }

  /** Frames as a client sends them: below the largest number, and duplicates agree. */
  ghost predicate Agreeing(frames: seq<Entry>) {
    && (forall e :: e in frames ==> e.num != MAX_SEQ)
    && (forall e, f :: e in frames && f in frames && e.num == f.num ==> e.data == f.data)
  }

  /** The frames as a table; duplicates agree, so the order of the list does not matter. */
  function Table(frames: seq<Entry>): map<u32, Bytes> {
    if frames == [] then map[]
    else Table(frames[..|frames| - 1])[frames[|frames| - 1].num := frames[|frames| - 1].data]
  }

  lemma {:induction false} FramesIgnoreNext(calls: seq<Call>, clock: nat -> int, k: nat, n: nat)
    ensures Frames(calls + NextCalls(clock, k, n)) == Frames(calls)
    decreases n
  {
    var all := calls + NextCalls(clock, k, n);
    if n == 0 {
      assert all == calls;
    } else {
      FramesIgnoreNext(calls, clock, k, n - 1);
      assert all[..|all| - 1] == calls + NextCalls(clock, k, n - 1);
    }
  }

  lemma {:induction false} DrainFrames(c: Conn, clock: nat -> int)
    ensures Frames(OnDrain(c, clock).calls) == Frames(c.calls)
    ensures forall x :: x in OnDrain(c, clock).calls && x.Ins? ==> x in c.calls
  {
    FramesIgnoreNext(c.calls, clock, 0, Drain(Buffer(c), clock, 0).calls);
  }

  lemma {:induction false} TableHas(frames: seq<Entry>)
    requires Agreeing(frames)
    ensures forall q: u32 :: q in Table(frames) ==> Entry(q, Table(frames)[q]) in frames
    ensures forall e :: e in frames ==> e.num in Table(frames) && Table(frames)[e.num] == e.data
  {
    if frames != [] {
      var before := frames[..|frames| - 1];
      TableHas(before);
      assert forall e :: e in frames ==> e in before || e == frames[|frames| - 1];
    }
  }

  /** The calls inserted exactly the frames. */
  ghost predicate Fed(calls: seq<Call>, frames: seq<Entry>) {
    Frames(calls) == Table(frames) && forall x :: x in calls && x.Ins? ==> Entry(x.num, x.data) in frames
  }

  lemma {:induction false} FedIsConsistent(calls: seq<Call>, frames: seq<Entry>)
    requires Fed(calls, frames) && Agreeing(frames)
    ensures NoMax(calls) && Consistent(calls)
  {
    forall i | 0 <= i < |calls| && calls[i].Ins? ensures calls[i].num != MAX_SEQ {
      assert Entry(calls[i].num, calls[i].data) in frames;
    }
    forall i, j | 0 <= i < |calls| && 0 <= j < |calls| && calls[i].Ins? && calls[j].Ins? && calls[i].num == calls[j].num
      ensures calls[i].data == calls[j].data
    {
      assert Entry(calls[i].num, calls[i].data) in frames && Entry(calls[j].num, calls[j].data) in frames;
    }
  }

  lemma {:induction false} FeedIsFed(id: u32, src: Source, frames: seq<Entry>, how: seq<Arrival>, ready: nat -> int, readyAt: nat)
    requires |how| >= |frames|
    ensures var c := Feed(id, src, frames, how, ready, readyAt);
            c.start == 1 && c.queueOpen == (readyAt <= |frames|) && Fed(c.calls, frames)
    decreases |frames|, 1
  {
    FillIsFed(id, src, frames, how, ready, readyAt);
    ReadyIsFed(Fill(id, src, frames, how, ready, readyAt), frames, ready);
  }

  lemma {:induction false} FillIsFed(id: u32, src: Source, frames: seq<Entry>, how: seq<Arrival>, ready: nat -> int, readyAt: nat)
    requires |how| >= |frames|
    ensures var c := Fill(id, src, frames, how, ready, readyAt);
            c.start == 1 && c.queueOpen == (readyAt < |frames|) && Fed(c.calls, frames)
    decreases |frames|, 0
  {
    if frames != [] {
      var n := |frames| - 1;
      FeedIsFed(id, src, frames[..n], how, ready, readyAt);
      DataIsFed(Feed(id, src, frames[..n], how, ready, readyAt), frames[..n], frames[n], how[n]);
      assert frames == frames[..n] + [frames[n]];
    }
  }

  lemma {:induction false} ReadyIsFed(c: Conn, frames: seq<Entry>, ready: nat -> int)
    requires Fed(c.calls, frames)
    ensures Fed(OnReady(c, ready).calls, frames) && OnReady(c, ready).queueOpen && OnReady(c, ready).start == c.start
  {
    DrainFrames(c.(connected := true, queueOpen := true, queue := []), ready);
  }

  lemma {:induction false} DataIsFed(c: Conn, frames: seq<Entry>, f: Entry, a: Arrival)
    requires Fed(c.calls, frames)
    ensures var c' := OnArrival(c, f, a);
            Fed(c'.calls, frames + [f]) && c'.start == c.start && c'.queueOpen == c.queueOpen
  {
    var c1 := c.(sources := if a.src in c.sources then c.sources else c.sources + [a.src],
                 lastActive := a.now, calls := c.calls + [Ins(f.num, f.data)]);
    assert (c.calls + [Ins(f.num, f.data)])[..|c.calls|] == c.calls;
    assert (frames + [f])[..|frames|] == frames;
    DrainFrames(c1, a.clock);
  }

  // ------------------------------------------------------------------ a drain that does not stall

  lemma {:induction false} NoSkipBefore(start: u32, calls: seq<Call>, more: seq<Call>)
    requires NoSkip(start, calls + more)
    ensures NoSkip(start, calls)
    ensures more != [] && more[0].Nxt? ==> !Expires(Run(start, calls).state, more[0].now)
  {
    var all := calls + more;
    forall k | 0 <= k < |calls| && calls[k].Nxt? ensures !Expires(Run(start, calls[..k]).state, calls[k].now) {
      assert all[..k] == calls[..k] && all[k] == calls[k];
    }
    if more != [] {
      assert all[..|calls|] == calls && all[|calls|] == more[0];
    }
  }

  /** In a gap-free run every number from the start to `nextSeq` was inserted, and every later one is buffered. */
  lemma {:induction false} BufferIs(calls: seq<Call>, frames: seq<Entry>)
    requires Fed(calls, frames) && Agreeing(frames) && NoSkip(1, calls)
    ensures var s := Run(1, calls).state;
            && (forall q: u32 :: 1 <= q < s.nextSeq ==> q in Table(frames))
            && (forall q: u32 :: s.nextSeq <= q ==> (q in s.buffer <==> q in Table(frames)))
            && (forall q: u32 :: q in s.buffer ==> q in Table(frames) && s.buffer[q] == Table(frames)[q])
  {
    FedIsConsistent(calls, frames);
    FramesAre(calls);
    RunGapless(1, calls);
    RunFromInserts(1, calls);
    var t := Run(1, calls);
    forall q: u32 | 1 <= q < t.state.nextSeq ensures q in Table(frames) {
      assert t.log[q - 1].num == q;
    }
    forall q: u32 | q in t.state.buffer ensures q in Table(frames) && t.state.buffer[q] == Table(frames)[q] {
      var i :| 0 <= i < |calls| && calls[i] == Ins(q, t.state.buffer[q]);
    }
  }

  /** The first empty frame of a stretch. */
  lemma {:induction false} FirstEmpty(m: map<u32, Bytes>, from: u32, last: u32) returns (q: u32)
    requires from <= last && (forall x: u32 :: from <= x <= last ==> x in m) && m[last] == []
    ensures from <= q <= last && m[q] == []
    ensures forall x: u32 :: from <= x < q ==> m[x] != []
    decreases last - from
  {
    if m[from] == [] {
      q := from;
    } else {
      q := FirstEmpty(m, from + 1, last);
    }
  }

  /** A drain that stalls part of the way reveals a stall of the whole table. */
  lemma {:induction false} StallIsVisible(calls: seq<Call>, frames: seq<Entry>)
    requires Fed(calls, frames) && Agreeing(frames) && NoSkip(1, calls)
    requires Stalls(Run(1, calls).state.buffer, Run(1, calls).state.nextSeq)
    ensures Stalls(Table(frames), 1)
  {
    var s, m := Run(1, calls).state, Table(frames);
    BufferIs(calls, frames);
    var q: u32 :| StallsAt(s.buffer, s.nextSeq, q);
    FedIsConsistent(calls, frames);
    RunGapless(1, calls);
    forall x: u32 | 1 <= x <= q ensures x in m {
      if s.nextSeq <= x {
        assert x in s.buffer;
      }
    }
    assert q in s.buffer && q + 1 in s.buffer;
    var p := FirstEmpty(m, 1, q);
    assert StallsAt(m, 1, p);
  }

  lemma {:induction false} DrainedDry(c: Conn, frames: seq<Entry>, clock: nat -> int)
    requires c.start == 1 && Fed(c.calls, frames) && Agreeing(frames)
    requires NoSkip(1, OnDrain(c, clock).calls) && !Stalls(Table(frames), 1)
    ensures var s := Buffer(OnDrain(c, clock)); s.nextSeq !in s.buffer
  {
    var d := Drain(Buffer(c), clock, 0);
    assert NextCalls(clock, 0, d.calls)[0] == Nxt(clock(0));
    NoSkipBefore(1, c.calls, NextCalls(clock, 0, d.calls));
    RunAhead(1, c.calls);
    DrainStallsIff(Buffer(c), clock, 0);
    DrainLog(c, clock);
    if Stalls(Buffer(c).buffer, Buffer(c).nextSeq) {
      StallIsVisible(c.calls, frames);
    }
  }

  // ------------------------------------------------------------------ the theorem

  /** Once ready, a feed that does not stall is drained dry, so its log is the whole contiguous run. */
  lemma {:induction false} ReadyFeedIsDry(id: u32, src: Source, frames: seq<Entry>, how: seq<Arrival>, ready: nat -> int, readyAt: nat)
    requires |how| >= |frames| && Agreeing(frames) && readyAt <= |frames| && !Stalls(Table(frames), 1)
    requires NoSkip(1, Feed(id, src, frames, how, ready, readyAt).calls)
    ensures var s := Buffer(Feed(id, src, frames, how, ready, readyAt)); s.nextSeq !in s.buffer
  {
    if readyAt == |frames| {
      ReadyLast(id, src, frames, how, ready);
    } else {
      var n := |frames| - 1;
      assert frames == frames[..n] + [frames[n]];
      DryFeed(id, src, frames[..n], frames[n], how, ready, readyAt);
    }
  }

  lemma {:induction false} FeedOne(id: u32, src: Source, frames: seq<Entry>, f: Entry, how: seq<Arrival>, ready: nat -> int, readyAt: nat)
    requires |how| > |frames| && readyAt != |frames| + 1
    ensures Feed(id, src, frames + [f], how, ready, readyAt)
            == OnArrival(Feed(id, src, frames, how, ready, readyAt), f, how[|frames|])
  {
    var all := frames + [f];
    assert all[..|frames|] == frames && all[|frames|] == f;
    assert Feed(id, src, all, how, ready, readyAt) == Fill(id, src, all, how, ready, readyAt);
  }

  lemma {:induction false} DryFeed(id: u32, src: Source, frames: seq<Entry>, f: Entry, how: seq<Arrival>, ready: nat -> int, readyAt: nat)
    requires |how| > |frames| && Agreeing(frames + [f]) && readyAt <= |frames| && !Stalls(Table(frames + [f]), 1)
    requires NoSkip(1, Feed(id, src, frames + [f], how, ready, readyAt).calls)
    ensures var s := Buffer(Feed(id, src, frames + [f], how, ready, readyAt)); s.nextSeq !in s.buffer
  {
    FeedOne(id, src, frames, f, how, ready, readyAt);
    FeedIsFed(id, src, frames, how, ready, readyAt);
    DryAfterData(Feed(id, src, frames, how, ready, readyAt), frames, f, how[|frames|]);
  }

  lemma {:induction false} DryAfterData(c: Conn, frames: seq<Entry>, f: Entry, a: Arrival)
    requires c.start == 1 && c.queueOpen && Fed(c.calls, frames) && Agreeing(frames + [f]) && !Stalls(Table(frames + [f]), 1)
    requires NoSkip(1, OnArrival(c, f, a).calls)
    ensures var s := Buffer(OnArrival(c, f, a)); s.nextSeq !in s.buffer
  {
    var c1 := c.(sources := if a.src in c.sources then c.sources else c.sources + [a.src],
                 lastActive := a.now, calls := c.calls + [Ins(f.num, f.data)]);
    InsertIsFed(c.calls, frames, f);
    DrainedDry(c1, frames + [f], a.clock);
  }

  lemma {:induction false} InsertIsFed(calls: seq<Call>, frames: seq<Entry>, f: Entry)
    requires Fed(calls, frames)
    ensures Fed(calls + [Ins(f.num, f.data)], frames + [f])
  {
    assert (calls + [Ins(f.num, f.data)])[..|calls|] == calls;
    assert (frames + [f])[..|frames|] == frames;
  }

  /** The connection just when its upstream becomes ready after the last frame. */
  ghost function Waiting(id: u32, src: Source, frames: seq<Entry>, how: seq<Arrival>, ready: nat -> int): Conn
    requires |how| >= |frames|
  {
    Fill(id, src, frames, how, ready, |frames|).(connected := true, queueOpen := true, queue := [])
  }

  lemma {:induction false} ReadyLast(id: u32, src: Source, frames: seq<Entry>, how: seq<Arrival>, ready: nat -> int)
    requires |how| >= |frames| && Agreeing(frames) && !Stalls(Table(frames), 1)
    requires NoSkip(1, Feed(id, src, frames, how, ready, |frames|).calls)
    ensures var s := Buffer(Feed(id, src, frames, how, ready, |frames|)); s.nextSeq !in s.buffer
  {
    FillIsFed(id, src, frames, how, ready, |frames|);
    DrainedDry(Waiting(id, src, frames, how, ready), frames, ready);
  }

  /**
   Confluence of a late upstream connection: for every list of frames that does not stall, every two ways they
   arrive and every two moments at which the upstream becomes ready, before or between or after the frames, the
   drain logs are the same, as long as no gap timeout fires.  With `a == 0` one side had its upstream ready from
   the first frame.
   */
  lemma {:induction false} ReadyTimeDoesNotMatter(id: u32, src: Source, frames: seq<Entry>,
                                                  howA: seq<Arrival>, readyA: nat -> int, a: nat,
                                                  howB: seq<Arrival>, readyB: nat -> int, b: nat)
    requires |howA| >= |frames| && |howB| >= |frames| && Agreeing(frames) && !Stalls(Table(frames), 1)
    requires a <= |frames| && b <= |frames|
    requires NoSkip(1, Feed(id, src, frames, howA, readyA, a).calls)
    requires NoSkip(1, Feed(id, src, frames, howB, readyB, b).calls)
    ensures Log(Feed(id, src, frames, howA, readyA, a)) == Log(Feed(id, src, frames, howB, readyB, b))
            == Contiguous(1, Table(frames))
  {
    LogIffDry(id, src, frames, howA, readyA, a);
    LogIffDry(id, src, frames, howB, readyB, b);
    ReadyFeedIsDry(id, src, frames, howA, readyA, a);
    ReadyFeedIsDry(id, src, frames, howB, readyB, b);
  }

  /** Without a gap timeout the log is the contiguous run exactly when nothing is left ready. */
  lemma {:induction false} LogIffDry(id: u32, src: Source, frames: seq<Entry>, how: seq<Arrival>, ready: nat -> int, readyAt: nat)
    requires |how| >= |frames| && Agreeing(frames) && NoSkip(1, Feed(id, src, frames, how, ready, readyAt).calls)
    ensures var c := Feed(id, src, frames, how, ready, readyAt);
            Log(c) == Contiguous(1, Table(frames)) <==> Buffer(c).nextSeq !in Buffer(c).buffer
  {
    var c := Feed(id, src, frames, how, ready, readyAt);
    FeedIsFed(id, src, frames, how, ready, readyAt);
    FedIsConsistent(c.calls, frames);
    RefinesContiguous(1, c.calls);
  }

  /** Empty frames that stall the table hurt: the flush after the last frame, at one moment, leaves frames ready. */
  lemma {:induction false} LateFlushStalls(id: u32, frames: seq<Entry>) returns (how: seq<Arrival>, ready: nat -> int)
    requires Agreeing(frames) && Stalls(Table(frames), 1)
    ensures |how| == |frames| && NoSkip(1, Feed(id, 0, frames, how, ready, |frames|).calls)
    ensures Log(Feed(id, 0, frames, how, ready, |frames|)) != Contiguous(1, Table(frames))
  {
    ready := _ => 0;
    how := seq(|frames|, _ => Arrival(0, 0, ready));
    var c := Waiting(id, 0, frames, how, ready);
    WaitingOnlyInserts(id, 0, frames, how, ready, |frames|);
    FillIsFed(id, 0, frames, how, ready, |frames|);
    FlushIsShort(c, frames, ready);
    LogIffDry(id, 0, frames, how, ready, |frames|);
  }

  /** A feed whose upstream is not ready yet only inserts. */
  lemma {:induction false} WaitingOnlyInserts(id: u32, src: Source, frames: seq<Entry>, how: seq<Arrival>, ready: nat -> int, readyAt: nat)
    requires |how| >= |frames| && |frames| <= readyAt
    ensures forall x :: x in Fill(id, src, frames, how, ready, readyAt).calls ==> x.Ins?
    ensures !Fill(id, src, frames, how, ready, readyAt).queueOpen
    decreases |frames|
  {
    if frames != [] {
      WaitingOnlyInserts(id, src, frames[..|frames| - 1], how, ready, readyAt);
    }
  }

  lemma {:induction false} NothingTaken(calls: seq<Call>)
    requires forall x :: x in calls ==> x.Ins?
    ensures Run(1, calls).state.nextSeq == 1 && Run(1, calls).state.timer == Idle && NoSkip(1, calls)
  {
    assert forall k :: 0 <= k < |calls| ==> calls[k] in calls && calls[k].Ins?;
    if calls != [] {
      NothingTaken(calls[..|calls| - 1]);
    }
  }

  lemma {:induction false} FlushInstant(calls: seq<Call>, ready: nat -> int, n: nat)
    requires (forall x :: x in calls ==> x.Ins?) && forall k :: ready(k) == 0
    ensures NoSkip(1, calls + NextCalls(ready, 0, n))
  {
    var all := calls + NextCalls(ready, 0, n);
    forall k | 0 <= k < |all| ensures all[k].Nxt? ==> 0 <= all[k].now < GAP_TIMEOUT {
      assert all[k] == if k < |calls| then calls[k] else Nxt(ready(k - |calls|));
      assert k < |calls| ==> calls[k] in calls;
    }
    ShortRunsDoNotSkip(1, all, 0);
  }

  lemma {:induction false} FlushIsShort(c: Conn, frames: seq<Entry>, ready: nat -> int)
    requires c.start == 1 && Fed(c.calls, frames) && Agreeing(frames) && Stalls(Table(frames), 1)
    requires (forall x :: x in c.calls ==> x.Ins?) && forall k :: ready(k) == 0
    ensures NoSkip(1, OnDrain(c, ready).calls)
    ensures var s := Buffer(OnDrain(c, ready)); s.nextSeq in s.buffer
  {
    var s, m := Buffer(c), Table(frames);
    NothingTaken(c.calls);
    BufferIs(c.calls, frames);
    var q: u32 :| StallsAt(m, 1, q);
    assert StallsAt(s.buffer, s.nextSeq, q);
    RunAhead(1, c.calls);
    DrainStallsIff(s, ready, 0);
    DrainLog(c, ready);
    FlushInstant(c.calls, ready, Drain(s, ready, 0).calls);
  }

  /** Every arrival and every ready time without a gap timeout gives the whole contiguous run. */
  ghost predicate AlwaysWhole(id: u32, frames: seq<Entry>) {
    forall src: Source, how: seq<Arrival>, ready: nat -> int, readyAt: nat ::
      |how| >= |frames| && readyAt <= |frames| && NoSkip(1, Feed(id, src, frames, how, ready, readyAt).calls) ==>
      Log(Feed(id, src, frames, how, ready, readyAt)) == Contiguous(1, Table(frames))
  }

  /**
   Exactly which lists of frames are drained whole whatever the arrival and whenever the upstream becomes ready:
   those whose contiguous run does not have an empty frame before its end.
   */
  lemma {:induction false} AlwaysWholeIff(id: u32, frames: seq<Entry>)
    requires Agreeing(frames)
    ensures AlwaysWhole(id, frames) <==> !Stalls(Table(frames), 1)
  {
    if Stalls(Table(frames), 1) {
      var how, ready := LateFlushStalls(id, frames);
    } else {
      forall src: Source, how: seq<Arrival>, ready: nat -> int, readyAt: nat
        | |how| >= |frames| && readyAt <= |frames| && NoSkip(1, Feed(id, src, frames, how, ready, readyAt).calls)
        ensures Log(Feed(id, src, frames, how, ready, readyAt)) == Contiguous(1, Table(frames))
      {
        ReadyTimeDoesNotMatter(id, src, frames, how, ready, readyAt, how, ready, readyAt);
      }
    }
  }

  // ------------------------------------------------------------------ the end of a connection

  /** A FIN drains like data does, giving a gap up if the timer has expired, and then nothing is drained any more. */
  lemma {:induction false} FinEnds(c: Conn, clock: nat -> int, f: Entry, a: Arrival)
    requires Ahead(Buffer(c)) && Full(Buffer(c)) && c.queueOpen
    ensures var c' := OnFin(c, clock);
            && !c'.queueOpen
            && Buffer(c').nextSeq !in Buffer(c').buffer
            && Gaps(Buffer(c')) == Gaps(Buffer(c)) - (if Expires(Buffer(c), clock(0)) then 1 else 0)
            && Conserves(Buffer(c), Buffer(c'), Drain(Buffer(c), clock, 0).log)
            && Log(c') == Log(c) + Drain(Buffer(c), clock, 0).log
            && Log(OnArrival(c', f, a)) == Log(c')
  {
    var d, c' := OnDrain(c, clock), OnFin(c, clock);
    DrainLog(c, clock);
    assert Buffer(c') == Buffer(d) && Log(c') == Log(d);
    DrainConserves(Buffer(c), clock, 0);
    DrainGaps(Buffer(c), clock, 0);
    InsertLog(c', f.num, f.data);
    ClosedOnlyInserts(c', f, a);
  }

  lemma {:induction false} ClosedOnlyInserts(c: Conn, f: Entry, a: Arrival)
    requires !c.queueOpen
    ensures OnArrival(c, f, a).calls == c.calls + [Ins(f.num, f.data)] && OnArrival(c, f, a).start == c.start
    ensures Log(OnArrival(c, f, a)) == Log(c)
  {
    InsertLog(c, f.num, f.data);
    assert Log(OnArrival(c, f, a)) == Log(c.(calls := c.calls + [Ins(f.num, f.data)]));
  }

  /** In particular a list without empty frames never stalls. */
  lemma {:induction false} NoEmptyFrameNoStall(frames: seq<Entry>)
    requires Agreeing(frames) && forall e :: e in frames ==> e.data != []
    ensures !Stalls(Table(frames), 1)
  {
    TableHas(frames);
  }
}
