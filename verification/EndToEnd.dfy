/**
 The theorems about whole runs of the tunnel: what reaches the upstream of a connection, what reaches its
 client, and what the server's tables look like, in every reachable world.
 */
module EndToEnd {
  import opened Basics
  import opened Lists
  import opened Reorder
  import opened ReorderGaps
  import S = Server
  import WriteQueue
  import opened Tunnel
  import opened History
  import Splitter
  import Codec
  import ReordererImpl

  /**
   An at-most-once, in-order selection: the log's entries are chunks of the stream, each identified by its
   number counted from `base`, and the numbers strictly increase.
   */
  ghost predicate Selects(chunks: seq<Bytes>, log: seq<Entry>, base: nat) {
    && Increasing(log)
    && forall i :: 0 <= i < |log| ==> base <= log[i].num < base + |chunks| && log[i].data == chunks[log[i].num - base]
  }

  /** The inserted frames are the numbered chunks of one stream. */
  ghost predicate FromStream(calls: seq<Call>, chunks: seq<Bytes>, base: nat) {
    forall x :: x in calls && x.Ins? ==>
      exists k :: 0 <= k < |chunks| && chunks[k] == x.data && x.num == Wrap(k + base)
  }

  lemma {:induction false} StreamNumber(calls: seq<Call>, chunks: seq<Bytes>, base: nat, x: Call)
    requires FromStream(calls, chunks, base) && |chunks| + base <= MAX_SEQ && x in calls && x.Ins?
    ensures base <= x.num < base + |chunks| && x.data == chunks[x.num - base] && x.num != MAX_SEQ
  {
    var k :| 0 <= k < |chunks| && chunks[k] == x.data && x.num == Wrap(k + base);
  }

  /** Whatever the network does, a reorderer fed with one stream selects from that stream, in order, each at most once. */
  lemma {:induction false} ReordererSelects(start: u32, calls: seq<Call>, chunks: seq<Bytes>, base: nat)
    requires FromStream(calls, chunks, base) && |chunks| + base <= MAX_SEQ
    ensures Selects(chunks, Run(start, calls).log, base)
  {
    var log := Run(start, calls).log;
    RunFromInserts(start, calls);
    forall i | 0 <= i < |log|
      ensures base <= log[i].num < base + |chunks| && log[i].data == chunks[log[i].num - base] && log[i].num != MAX_SEQ
    {
      StreamNumber(calls, chunks, base, Ins(log[i].num, log[i].data));
    }
    RunOrdered(start, calls);
  }

  /** Three calls that hand out the frame with the largest number from an empty buffer, wherever it stands, and wrap. */
  lemma {:induction false} HandsOutLast(start: u32, calls: seq<Call>, x: Bytes, now: int) returns (more: seq<Call>)
    requires Run(start, calls).state.buffer == map[] && Run(start, calls).state.timer.Idle?
    ensures more == calls + [Ins(MAX_SEQ, x)] + [Nxt(now)] + [Nxt(now + GAP_TIMEOUT)]
    ensures var t := Run(start, more);
            t.state == State(0, map[], Idle) && t.log == Run(start, calls).log + [Entry(MAX_SEQ, x)]
  {
    var n := Run(start, calls).state.nextSeq;
    var a := calls + [Ins(MAX_SEQ, x)];
    RunSnoc(start, calls, Ins(MAX_SEQ, x));
    assert Run(start, a).state == State(n, map[MAX_SEQ := x], Idle);
    more := a + [Nxt(now)] + [Nxt(now + GAP_TIMEOUT)];
    RunSnoc(start, a, Nxt(now));
    RunSnoc(start, a + [Nxt(now)], Nxt(now + GAP_TIMEOUT));
    if n == MAX_SEQ {
      LastIsReady(x, now);
    } else {
      LastIsMissed(n, x, now);
    }
  }

  lemma {:induction false} LastIsReady(x: Bytes, now: int)
    ensures Reorder.Next(State(MAX_SEQ, map[MAX_SEQ := x], Idle), now) == Taken(State(0, map[], Idle), Some(Entry(MAX_SEQ, x)))
    ensures Reorder.Next(State(0, map[], Idle), now + GAP_TIMEOUT) == Taken(State(0, map[], Idle), None)
  {
    assert map[MAX_SEQ := x] - {MAX_SEQ} == map[];
  }

  lemma {:induction false} LastIsMissed(n: u32, x: Bytes, now: int)
    requires n < MAX_SEQ
    ensures Reorder.Next(State(n, map[MAX_SEQ := x], Idle), now) == Taken(State(n, map[MAX_SEQ := x], Since(now)), None)
    ensures Reorder.Next(State(n, map[MAX_SEQ := x], Since(now)), now + GAP_TIMEOUT)
            == Taken(State(0, map[], Idle), Some(Entry(MAX_SEQ, x)))
  {
    assert map[MAX_SEQ := x] - {MAX_SEQ} == map[];
    assert Lowest(map[MAX_SEQ := x]) == MAX_SEQ;
  }

  /** A stream that has a chunk with the largest number can be delivered so that this chunk comes twice. */
  lemma {:induction false} LongStreamBreaksOrder(start: u32, chunks: seq<Bytes>, base: u32) returns (calls: seq<Call>)
    requires |chunks| + base > MAX_SEQ
    ensures FromStream(calls, chunks, base)
    ensures var x := Entry(MAX_SEQ, chunks[MAX_SEQ - base]);
            Run(start, calls).log == [x, x] && !Increasing(Run(start, calls).log)
  {
    var k := MAX_SEQ - base;
    var x := chunks[k];
    calls := HandsOutLast(start, [], x, 0);
    calls := HandsOutLast(start, calls, x, 0);
    assert x == chunks[k] && MAX_SEQ == Wrap(k + base);
    var log := Run(start, calls).log;
    assert log[0].num == log[1].num;
  }

  /**
   Exactly which streams are delivered in order and at most once: for every start, every stream and every first
   number, all runs fed from the stream hand out increasing numbers if and only if the stream ends before the
   largest 32-bit number.
   */
  lemma {:induction false} StreamOrderIff(start: u32, chunks: seq<Bytes>, base: u32)
    ensures (forall calls :: FromStream(calls, chunks, base) ==> Increasing(Run(start, calls).log))
            <==> |chunks| + base <= MAX_SEQ
  {
    if |chunks| + base <= MAX_SEQ {
      forall calls | FromStream(calls, chunks, base) ensures Increasing(Run(start, calls).log) {
        ReordererSelects(start, calls, chunks, base);
      }
    } else {
      var calls := LongStreamBreaksOrder(start, chunks, base);
      assert FromStream(calls, chunks, base) && !Increasing(Run(start, calls).log);
    }
  }

  lemma {:induction false} StreamNoMax(calls: seq<Call>, chunks: seq<Bytes>, base: nat)
    requires FromStream(calls, chunks, base) && |chunks| + base <= MAX_SEQ
    ensures NoMax(calls)
  {
    forall i | 0 <= i < |calls| && calls[i].Ins? ensures calls[i].num != MAX_SEQ {
      StreamNumber(calls, chunks, base, calls[i]);
    }
  }

  lemma {:induction false} SelectsConsecutive(chunks: seq<Bytes>, log: seq<Entry>, base: nat)
    requires Selects(chunks, log, base) && forall i :: 0 <= i < |log| ==> log[i].num == base + i
    ensures Payloads(log) <= chunks
  {
    assert log != [] ==> log[|log| - 1].num == base + |log| - 1;
    assert |log| <= |chunks|;
    assert forall i :: 0 <= i < |log| ==> Payloads(log)[i] == chunks[i];
  }

  /** And if no gap timeout fires, it delivers a prefix of the stream. */
  lemma {:induction false} ReordererPrefix(start: u32, calls: seq<Call>, chunks: seq<Bytes>)
    requires FromStream(calls, chunks, start) && |chunks| + start <= MAX_SEQ && NoSkip(start, calls)
    ensures Payloads(Run(start, calls).log) <= chunks
  {
    ReordererSelects(start, calls, chunks, start);
    StreamNoMax(calls, chunks, start);
    RunGapless(start, calls);
    SelectsConsecutive(chunks, Run(start, calls).log, start);
  }

  /** Every chunk of the stream was inserted under its number. */
  ghost predicate AllInserted(calls: seq<Call>, chunks: seq<Bytes>, base: nat) {
    forall k :: 0 <= k < |chunks| ==> Ins(Wrap(k + base), chunks[k]) in calls
  }

  /** Nothing can be handed out without a gap timeout. */
  ghost predicate Dry(s: State) {
    s.nextSeq !in s.buffer
  }

  /** Without a gap timeout and with nothing left ready, everything has been delivered if and only if everything arrived. */
  lemma {:induction false} ReordererComplete(start: u32, calls: seq<Call>, chunks: seq<Bytes>)
    requires FromStream(calls, chunks, start) && |chunks| + start <= MAX_SEQ && NoSkip(start, calls)
    requires Dry(Run(start, calls).state)
    ensures Payloads(Run(start, calls).log) == chunks <==> AllInserted(calls, chunks, start)
  {
    var log := Run(start, calls).log;
    ReordererPrefix(start, calls, chunks);
    StreamNoMax(calls, chunks, start);
    RunGapless(start, calls);
    if |log| < |chunks| {
      NextIsMissing(start, calls, chunks, |log|);
    } else {
      DeliveredWasInserted(start, calls, chunks);
    }
  }

  lemma {:induction false} NextIsMissing(start: u32, calls: seq<Call>, chunks: seq<Bytes>, k: nat)
    requires k < |chunks| && |chunks| + start <= MAX_SEQ
    requires Gapless(start, Run(start, calls), calls) && Dry(Run(start, calls).state) && Run(start, calls).state.nextSeq == start + k
    ensures !AllInserted(calls, chunks, start)
  {
    InsertHasNumber(calls, Ins(Wrap(k + start), chunks[k]));
  }

  lemma {:induction false} InsertHasNumber(calls: seq<Call>, x: Call)
    requires x.Ins?
    ensures x in calls ==> InsertedNum(calls, x.num)
  {
  }

  lemma {:induction false} DeliveredWasInserted(start: u32, calls: seq<Call>, chunks: seq<Bytes>)
    requires Gapless(start, Run(start, calls), calls) && |chunks| + start <= MAX_SEQ
    requires Payloads(Run(start, calls).log) == chunks
    ensures AllInserted(calls, chunks, start)
  {
    var log := Run(start, calls).log;
    RunFromInserts(start, calls);
    forall k | 0 <= k < |chunks| ensures Ins(Wrap(k + start), chunks[k]) in calls {
      assert Payloads(log)[k] == log[k].data && Wrap(k + start) == log[k].num;
    }
  }

  lemma {:induction false} PrefixFlattens(a: seq<Bytes>, b: seq<Bytes>)
    requires a <= b
    ensures Flatten(a) <= Flatten(b)
  {
    assert b == a + b[|a|..];
    FlattenConcat(a, b[|a|..]);
  }

  /** A selection holds no more bytes than its stream. */
  lemma {:induction false} SelectionIsShort(chunks: seq<Bytes>, log: seq<Entry>, base: nat)
    requires Selects(chunks, log, base)
    ensures |Flatten(Payloads(log))| <= |Flatten(chunks)|
    decreases |log|
  {
    if log != [] {
      var before, last := log[..|log| - 1], log[|log| - 1];
      var k := last.num - base;
      assert forall i :: 0 <= i < |before| ==> before[i] == log[i] && log[i].num < last.num;
      assert Selects(chunks[..k], before, base);
      SelectionIsShort(chunks[..k], before, base);
      assert Payloads(log) == Payloads(before) + [last.data];
      FlattenSnoc(Payloads(before), last.data);
      FlattenSnoc(chunks[..k], chunks[k]);
      assert chunks[..k] + [chunks[k]] == chunks[..k + 1];
      PrefixFlattens(chunks[..k + 1], chunks);
    }
  }

  // ------------------------------------------------------------------ client to upstream

  /**
   The frames the network may deliver for a client are exactly the data frames its splitter numbered after the
   SYN, which took number 0.
   */
  lemma {:induction false} SentIsNumbered(clients: map<u32, Client>, id: u32, num: u32, data: Bytes)
    requires id in clients
    ensures SentData(clients, id, num, data)
            <==> Codec.Frame(id, num, Codec.FLAG_DATA, data) in Splitter.Numbered(id, 1, clients[id].chunks)
  {
    var chunks, fs := clients[id].chunks, Splitter.Numbered(id, 1, clients[id].chunks);
    if SentData(clients, id, num, data) {
      var k :| 0 <= k < |chunks| && chunks[k] == data && num == Wrap(k + 1);
      assert fs[k] == Codec.Frame(id, num, Codec.FLAG_DATA, data);
    }
  }

  lemma {:induction false} ForwardStream(w: World, h: nat)
    requires Inv(w) && h < |w.server.heap|
    ensures var c := w.server.heap[h];
            c.id in w.clients && c.start == 1 && FromStream(c.calls, w.clients[c.id].chunks, 1)
  {
    var c := w.server.heap[h];
    assert ConnInv(w, c);
    forall x | x in c.calls && x.Ins?
      ensures exists k :: 0 <= k < |w.clients[c.id].chunks| && w.clients[c.id].chunks[k] == x.data && x.num == Wrap(k + 1)
    {
      assert SentData(w.clients, c.id, x.num, x.data);
    }
  }

  /**
   Forward direction.  In every run, for every connection state ever created, the frames drained for its
   upstream are an in-order, at-most-once selection of the chunks its client sent; if no gap timeout fired
   for it, they are a prefix of them, and once nothing is ready all of them if and only if all arrived.
   */
  lemma {:induction false} ForwardDelivery(es: seq<Event>, h: nat)
    requires Exec(es).Some? && h < |Exec(es).value.server.heap|
    requires var w := Exec(es).value;
             w.server.heap[h].id in w.clients ==> |w.clients[w.server.heap[h].id].chunks| < MAX_SEQ
    ensures var w := Exec(es).value;
            var c := w.server.heap[h];
            && c.id in w.clients
            && Selects(w.clients[c.id].chunks, S.Log(c), 1)
            && (NoSkip(1, c.calls) ==> Payloads(S.Log(c)) <= w.clients[c.id].chunks)
            && (NoSkip(1, c.calls) && Dry(S.Buffer(c)) ==>
                  (Payloads(S.Log(c)) == w.clients[c.id].chunks <==> AllInserted(c.calls, w.clients[c.id].chunks, 1)))
  {
    var w := Exec(es).value;
    Reachable(es);
    ForwardStream(w, h);
    var c := w.server.heap[h];
    ReordererSelects(1, c.calls, w.clients[c.id].chunks, 1);
    if NoSkip(1, c.calls) {
      ReordererPrefix(1, c.calls, w.clients[c.id].chunks);
      if Dry(S.Buffer(c)) {
        ReordererComplete(1, c.calls, w.clients[c.id].chunks);
      }
    }
  }

  lemma {:induction false} SelectionOfSelection(chunks: seq<Bytes>, log: seq<Entry>, part: seq<Entry>, base: nat)
    requires Selects(chunks, log, base) && WriteQueue.InOrderPart(part, log)
    ensures Selects(chunks, part, base)
  {
    forall i | 0 <= i < |part|
      ensures base <= part[i].num < base + |chunks| && part[i].data == chunks[part[i].num - base]
    {
      assert part[i] in log;
    }
  }

  /**
   The upstream write queue.  In every run in which no two handlers of the connection overlapped between
   draining and pushing, everything the queue ever accepted is an in-order, at-most-once selection of the
   drain log and hence of the client's chunks.
   */
  lemma {:induction false} ForwardQueue(es: seq<Event>, h: nat)
    requires Exec(es).Some? && h < |Exec(es).value.server.heap|
    requires var w := Exec(es).value;
             w.server.heap[h].id in w.clients ==> |w.clients[w.server.heap[h].id].chunks| < MAX_SEQ
    requires !Exec(es).value.server.heap[h].overlapped
    ensures var w := Exec(es).value;
            var c := w.server.heap[h];
            && WriteQueue.InOrderPart(c.pushed, S.Log(c))
            && c.id in w.clients && Selects(w.clients[c.id].chunks, c.pushed, 1)
  {
    var w := Exec(es).value;
    var c := w.server.heap[h];
    ForwardDelivery(es, h);
    Reachable(es);
    assert ConnInv(w, c);
    var all := c.pushed + WriteQueue.Pending(c);
    assert forall i :: 0 <= i < |c.pushed| ==> c.pushed[i] == all[i];
    assert forall e :: e in c.pushed ==> e in all;
    SelectionOfSelection(w.clients[c.id].chunks, S.Log(c), c.pushed, 1);
  }

  /**
   The bytes written upstream.  In every such run, what the writer took from the queue is an in-order, at-most-once
   selection of the chunks that the client's events sent.
   */
  lemma {:induction false} UpstreamWrites(es: seq<Event>, h: nat)
    requires Exec(es).Some? && h < |Exec(es).value.server.heap|
    requires |SentBy(es, Exec(es).value.server.heap[h].id)| < MAX_SEQ
    requires !Exec(es).value.server.heap[h].overlapped
    ensures Selects(SentBy(es, Exec(es).value.server.heap[h].id), Written(es, h), 1)
  {
    var w := Exec(es).value;
    var c := w.server.heap[h];
    if c.id in w.clients {
      ChunksAreSent(es, c.id);
    }
    ForwardQueue(es, h);
    WriterTakesInOrder(es, h);
    assert forall i :: 0 <= i < |Written(es, h)| ==> c.pushed[i] == Written(es, h)[i];
  }

  /** Server events as events of the system. */
  function Serves(ms: seq<S.Event>): (es: seq<Event>)
    ensures |es| == |ms|
  {
    seq(|ms|, i requires 0 <= i < |ms| => Serve(ms[i]))
  }

  lemma {:induction false} MoveInWorld(w: World, h: nat, e: S.Event)
    requires S.Lifecycle(w.server) && h < |w.server.heap| && (e.Push? || e.Pop?) && e.h == h
    ensures Enabled(w, Serve(e)) <==> WriteQueue.Movable(w.server.heap[h], e)
    ensures Enabled(w, Serve(e)) ==>
              Tunnel.Apply(w, Serve(e)).server == S.Update(w.server, h, S.OnConn(w.server.heap[h], e))
  {
  }

  lemma {:induction false} MoveAfter(es: seq<Event>, h: nat, e: S.Event)
    requires Exec(es).Some? && h < |Exec(es).value.server.heap| && (e.Push? || e.Pop?) && e.h == h
    ensures Exec(es + [Serve(e)]).Some? <==> WriteQueue.Movable(Exec(es).value.server.heap[h], e)
    ensures Exec(es + [Serve(e)]).Some? ==>
              var heap := Exec(es + [Serve(e)]).value.server.heap;
              h < |heap| && heap[h] == S.OnConn(Exec(es).value.server.heap[h], e)
  {
    Reachable(es);
    ExecLast(es, Serve(e));
    MoveInWorld(Exec(es).value, h, e);
  }

  /** A schedule is possible as a continuation of the run exactly when it is for the connection, with the same result. */
  ghost predicate PlaysAlike(es: seq<Event>, h: nat, ms: seq<S.Event>)
    requires Exec(es).Some? && h < |Exec(es).value.server.heap|
  {
    var after, played := Exec(es + Serves(ms)), WriteQueue.Play(Exec(es).value.server.heap[h], ms);
    && (after.Some? <==> played.Some?)
    && (after.Some? ==> h < |after.value.server.heap| && after.value.server.heap[h] == played.value)
  }

  lemma {:induction false} PlaysOn(es: seq<Event>, h: nat, ms: seq<S.Event>, e: S.Event)
    requires Exec(es).Some? && h < |Exec(es).value.server.heap| && PlaysAlike(es, h, ms)
    requires (e.Push? || e.Pop?) && e.h == h
    ensures PlaysAlike(es, h, ms + [e])
  {
    var before := es + Serves(ms);
    assert es + Serves(ms + [e]) == before + [Serve(e)];
    assert (ms + [e])[..|ms|] == ms;
    if Exec(before).Some? {
      MoveAfter(before, h, e);
    } else {
      ExecLast(before, Serve(e));
    }
  }

  /** A schedule of pushes and takes on one connection is a continuation of the run. */
  lemma {:induction false} PlayInWorld(es: seq<Event>, h: nat, ms: seq<S.Event>)
    requires Exec(es).Some? && h < |Exec(es).value.server.heap| && WriteQueue.MovesOf(ms, h)
    ensures PlaysAlike(es, h, ms)
    decreases |ms|
  {
    if ms == [] {
      assert es + Serves(ms) == es;
    } else {
      var n := |ms| - 1;
      PlayInWorld(es, h, ms[..n]);
      PlaysOn(es, h, ms[..n], ms[n]);
      assert ms == ms[..n] + [ms[n]];
    }
  }

  /** Every continuation of the run by pushes and takes on the connection keeps its queue in order. */
  ghost predicate QueueStaysOrdered(es: seq<Event>, h: nat) {
    forall ms :: WriteQueue.MovesOf(ms, h) && Exec(es + Serves(ms)).Some? && h < |Exec(es + Serves(ms)).value.server.heap| ==>
      Increasing(Exec(es + Serves(ms)).value.server.heap[h].pushed)
  }

  lemma {:induction false} StaysOrderedIff(es: seq<Event>, h: nat)
    requires Exec(es).Some? && h < |Exec(es).value.server.heap|
    ensures QueueStaysOrdered(es, h) <==> WriteQueue.KeepsOrder(Exec(es).value.server.heap[h], h)
  {
    forall ms | WriteQueue.MovesOf(ms, h) ensures PlaysAlike(es, h, ms) {
      PlayInWorld(es, h, ms);
    }
  }

  /** A handler drains: a frame arrives, the upstream becomes ready, or a FIN arrives. */
  predicate Drains(e: S.Event) {
    e.Data? || e.Ready? || e.Fin?
  }

  /** A drain on a connection that has not overlapped makes it overlap only by adding a second batch. */
  lemma {:induction false} OverlapMeansTwo(c: S.Conn, e: S.Event)
    requires !c.overlapped && Drains(e)
    ensures S.OnConn(c, e).overlapped ==> |S.OnConn(c, e).batches| >= 2
  {
  }

  /**
   Exactly when a drain endangers the order of the write queue, in every run: if the connection has not overlapped
   before, then every continuation by pushes and takes keeps its queue in order if and only if the drain did not
   overlap with a handler that was still pushing.
   */
  lemma {:induction false} QueueOrderIff(es: seq<Event>, e: S.Event)
    requires Drains(e) && Exec(es + [Serve(e)]).Some? && Exec(es).Some? && e.h < |Exec(es).value.server.heap|
    requires !Exec(es).value.server.heap[e.h].overlapped
    requires var w := Exec(es + [Serve(e)]).value;
             e.h < |w.server.heap| && (w.server.heap[e.h].id in w.clients ==> |w.clients[w.server.heap[e.h].id].chunks| < MAX_SEQ)
    ensures QueueStaysOrdered(es + [Serve(e)], e.h) <==> !Exec(es + [Serve(e)]).value.server.heap[e.h].overlapped
  {
    var all := es + [Serve(e)];
    DrainInWorld(es, e);
    QueueInvIn(all, e.h);
    OverlapMeansTwo(Exec(es).value.server.heap[e.h], e);
    WriteQueue.KeepsOrderIff(Exec(all).value.server.heap[e.h], e.h);
    StaysOrderedIff(all, e.h);
  }

  lemma {:induction false} DrainInWorld(es: seq<Event>, e: S.Event)
    requires Drains(e) && Exec(es + [Serve(e)]).Some? && Exec(es).Some? && e.h < |Exec(es).value.server.heap|
    ensures var heap := Exec(es + [Serve(e)]).value.server.heap;
            e.h < |heap| && heap[e.h] == S.OnConn(Exec(es).value.server.heap[e.h], e)
  {
    assert (es + [Serve(e)])[..|es|] == es;
  }

  lemma {:induction false} QueueInvIn(es: seq<Event>, h: nat)
    requires Exec(es).Some? && h < |Exec(es).value.server.heap|
    requires var w := Exec(es).value;
             w.server.heap[h].id in w.clients ==> |w.clients[w.server.heap[h].id].chunks| < MAX_SEQ
    ensures var c := Exec(es).value.server.heap[h]; WriteQueue.QueueInv(c) && Increasing(S.Log(c))
  {
    ForwardDelivery(es, h);
    Reachable(es);
    assert ConnInv(Exec(es).value, Exec(es).value.server.heap[h]);
  }

  /**
   And if two handlers of a connection are between draining and pushing, in whatever run, some continuation by
   pushes and takes puts its queue out of order.
   */
  lemma {:induction false} OverlapCanBreakOrder(es: seq<Event>, h: nat)
    requires Exec(es).Some? && h < |Exec(es).value.server.heap|
    requires var w := Exec(es).value;
             w.server.heap[h].id in w.clients ==> |w.clients[w.server.heap[h].id].chunks| < MAX_SEQ
    requires |Exec(es).value.server.heap[h].batches| >= 2
    ensures !QueueStaysOrdered(es, h)
  {
    QueueInvIn(es, h);
    var ms := WriteQueue.OverlapSchedule(Exec(es).value.server.heap[h], h);
    StaysOrderedIff(es, h);
  }

  // ------------------------------------------------------------------ upstream to client

  /** Chunk number `e.num` that state `h` of the connection read from its upstream. */
  ghost predicate ReadBy(w: World, id: u32, h: nat, e: Entry) {
    && h < |w.server.heap| && w.server.heap[h].id == id
    && e.num < |w.server.heap[h].upstream| && w.server.heap[h].upstream[e.num] == e.data
  }

  ghost predicate WasRead(w: World, id: u32, e: Entry) {
    exists h :: ReadBy(w, id, h, e)
  }

  ghost predicate ShortStreams(w: World, id: u32) {
    forall h :: 0 <= h < |w.server.heap| && w.server.heap[h].id == id ==> |w.server.heap[h].upstream| <= MAX_SEQ
  }

  lemma {:induction false} SentWasRead(w: World, f: Reverse)
    requires SentReverse(w.server, f) && ShortStreams(w, f.id)
    ensures ReadBy(w, f.id, f.h, Entry(f.num, f.data)) && f.num != MAX_SEQ
  {
    var k :| 0 <= k < |w.server.heap[f.h].upstream| && w.server.heap[f.h].upstream[k] == f.data && f.num == Wrap(k);
    assert k < MAX_SEQ && f.num == k;
  }

  lemma {:induction false} ReceivedWasRead(w: World, id: u32, x: Call) returns (h: nat)
    requires Inv(w) && id in w.clients && ShortStreams(w, id) && x in w.clients[id].calls && x.Ins?
    ensures ReadBy(w, id, h, Entry(x.num, x.data)) && x.num != MAX_SEQ
  {
    assert ClientInv(w, id);
    var f :| f in w.reverse && f.id == id && f.num == x.num && f.data == x.data;
    SentWasRead(w, f);
    h := f.h;
  }

  lemma {:induction false} HeardNoMax(w: World, id: u32)
    requires Inv(w) && id in w.clients && ShortStreams(w, id)
    ensures NoMax(w.clients[id].calls)
  {
    var calls := w.clients[id].calls;
    forall i | 0 <= i < |calls| && calls[i].Ins? ensures calls[i].num != MAX_SEQ {
      var h := ReceivedWasRead(w, id, calls[i]);
    }
  }

  lemma {:induction false} HeardWasRead(w: World, id: u32, i: nat)
    requires Inv(w) && id in w.clients && ShortStreams(w, id) && i < |Run(0, w.clients[id].calls).log|
    ensures Run(0, w.clients[id].calls).log[i].num != MAX_SEQ
    ensures WasRead(w, id, Run(0, w.clients[id].calls).log[i])
  {
    var e := Run(0, w.clients[id].calls).log[i];
    RunFromInserts(0, w.clients[id].calls);
    var h := ReceivedWasRead(w, id, Ins(e.num, e.data));
    assert ReadBy(w, id, h, e);
  }

  lemma {:induction false} HeardInOrder(w: World, id: u32)
    requires Inv(w) && id in w.clients && ShortStreams(w, id)
    ensures Increasing(Run(0, w.clients[id].calls).log)
  {
    var log := Run(0, w.clients[id].calls).log;
    forall i | 0 <= i < |log| ensures log[i].num != MAX_SEQ {
      HeardWasRead(w, id, i);
    }
    RunOrdered(0, w.clients[id].calls);
  }

  /**
   Reverse direction, whatever became of the connection on the server.  In every run what the client's reorderer
   hands to the client has strictly increasing numbers, consecutive from 0 if no gap timeout fires, and each
   entry is the chunk of that number of some state the server had for the connection.
   */
  lemma {:induction false} ReverseOrder(es: seq<Event>, id: u32)
    requires Exec(es).Some? && id in Exec(es).value.clients && ShortStreams(Exec(es).value, id)
    ensures var w := Exec(es).value;
            var log := Run(0, w.clients[id].calls).log;
            && Increasing(log)
            && (forall i :: 0 <= i < |log| ==> WasRead(w, id, log[i]))
            && (NoSkip(0, w.clients[id].calls) ==> forall i :: 0 <= i < |log| ==> log[i].num == i)
  {
    var w := Exec(es).value;
    var calls := w.clients[id].calls;
    var log := Run(0, calls).log;
    Reachable(es);
    HeardInOrder(w, id);
    forall i | 0 <= i < |log| ensures WasRead(w, id, log[i]) {
      HeardWasRead(w, id, i);
    }
    if NoSkip(0, calls) {
      HeardNoMax(w, id);
      RunGapless(0, calls);
    }
  }

  /** Every frame the client inserted is one that the server state `h` sent. */
  ghost predicate OnlyFrom(w: World, id: u32, h: nat)
    requires id in w.clients
  {
    h < |w.server.heap| && forall x :: x in w.clients[id].calls && x.Ins? ==> Reverse(id, h, x.num, x.data) in w.reverse
  }

  lemma {:induction false} ReverseStream(w: World, id: u32, h: nat)
    requires Inv(w) && id in w.clients && OnlyFrom(w, id, h)
    ensures FromStream(w.clients[id].calls, w.server.heap[h].upstream, 0)
  {
    forall x | x in w.clients[id].calls && x.Ins?
      ensures exists k :: 0 <= k < |w.server.heap[h].upstream| && w.server.heap[h].upstream[k] == x.data && x.num == Wrap(k + 0)
    {
      var f := Reverse(id, h, x.num, x.data);
      assert SentReverse(w.server, f);
      var k :| 0 <= k < |w.server.heap[h].upstream| && w.server.heap[h].upstream[k] == f.data && f.num == Wrap(k);
      assert x.num == Wrap(k + 0);
    }
  }

  /**
   Reverse direction for a client that heard one state.  In every run, for every interleaving of tunnels, failing
   sources, lost, duplicated and reordered frames, what the client's reorderer hands to the client is an in-order,
   at-most-once selection of the chunks read from upstream; if no gap timeout fires, the bytes are a prefix of the
   bytes read, and once nothing is ready all of them if and only if every chunk arrived.
   */
  lemma {:induction false} ReverseDelivery(es: seq<Event>, id: u32, h: nat)
    requires Exec(es).Some? && id in Exec(es).value.clients && OnlyFrom(Exec(es).value, id, h)
    requires |Exec(es).value.server.heap[h].upstream| <= MAX_SEQ
    ensures var w := Exec(es).value;
            var log := Run(0, w.clients[id].calls).log;
            var read := w.server.heap[h].upstream;
            && Selects(read, log, 0)
            && (NoSkip(0, w.clients[id].calls) ==> Payloads(log) <= read && Flatten(Payloads(log)) <= Flatten(read))
            && (NoSkip(0, w.clients[id].calls) && Dry(Run(0, w.clients[id].calls).state) ==>
                  (Payloads(log) == read <==> AllInserted(w.clients[id].calls, read, 0)))
  {
    var w := Exec(es).value;
    Reachable(es);
    ReverseStream(w, id, h);
    ReordererSelects(0, w.clients[id].calls, w.server.heap[h].upstream, 0);
    if NoSkip(0, w.clients[id].calls) {
      ReordererPrefix(0, w.clients[id].calls, w.server.heap[h].upstream);
      PrefixFlattens(Payloads(Run(0, w.clients[id].calls).log), w.server.heap[h].upstream);
      if Dry(Run(0, w.clients[id].calls).state) {
        ReordererComplete(0, w.clients[id].calls, w.server.heap[h].upstream);
      }
    }
  }

  lemma {:induction false} NothingIsEmpty(log: seq<Entry>)
    requires forall i :: 0 <= i < |log| ==> log[i].data != []
    ensures ReordererImpl.Chunks(log) == Payloads(log)
  {
    if log != [] {
      NothingIsEmpty(log[..|log| - 1]);
    }
  }

  /** The data frames a reverse relay received are numbered chunks of what the server read from upstream. */
  ghost predicate Carries(inputs: seq<Splitter.Input>, read: seq<Bytes>) {
    forall i :: 0 <= i < |inputs| && inputs[i].Incoming? && Splitter.CarriesData(inputs[i].frame) ==>
      exists k :: 0 <= k < |read| && read[k] == inputs[i].frame.payload && inputs[i].frame.num == Wrap(k + 0)
  }

  lemma {:induction false} RelayedCalls(inputs: seq<Splitter.Input>, handled: nat, calls: seq<Call>, read: seq<Bytes>)
    requires Carries(inputs, read) && handled <= |inputs| && calls <= Splitter.Replay(inputs[..handled])
    ensures FromStream(calls, read, 0) && forall x :: x in calls && x.Ins? ==> x.data != []
  {
    Splitter.ReplayFromInputs(inputs[..handled]);
    forall x | x in calls && x.Ins?
      ensures x.data != [] && exists k :: 0 <= k < |read| && read[k] == x.data && x.num == Wrap(k + 0)
    {
      assert x in Splitter.Replay(inputs[..handled]);
      var i :| 0 <= i < handled && inputs[..handled][i].Incoming? && Splitter.CarriesData(inputs[..handled][i].frame)
               && inputs[..handled][i].frame.num == x.num && inputs[..handled][i].frame.payload == x.data;
      assert inputs[i] == inputs[..handled][i];
    }
  }

  /**
   What the relay's loops write.  However its inputs, its ticks and the client's writes go, the chunks written
   to the client are an in-order, at-most-once selection of the chunks read from upstream, and never more bytes
   are counted than were read; without a gap timeout the chunks are a prefix.
   */
  lemma {:induction false} RelayWritesSelection(inputs: seq<Splitter.Input>, handled: nat, ending: Splitter.Ending, calls: seq<Call>,
                                                written: seq<Bytes>, total: nat, read: seq<Bytes>)
    requires Splitter.Relayed(inputs, handled, ending, calls, written, total)
    requires Carries(inputs, read) && |read| <= MAX_SEQ
    ensures written == Payloads(Run(0, calls).log) && Selects(read, Run(0, calls).log, 0)
    ensures total <= |Flatten(written)| <= |Flatten(read)|
    ensures NoSkip(0, calls) ==> written <= read && Flatten(written) <= Flatten(read)
  {
    RelayedCalls(inputs, handled, calls, read);
    ReordererSelects(0, calls, read, 0);
    RunFromInserts(0, calls);
    var log := Run(0, calls).log;
    forall i | 0 <= i < |log| ensures log[i].data != [] {
      assert Ins(log[i].num, log[i].data) in calls;
    }
    NothingIsEmpty(log);
    SelectionIsShort(read, log, 0);
    if NoSkip(0, calls) {
      ReordererPrefix(0, calls, read);
      PrefixFlattens(written, read);
    }
  }

  /** Every chunk of the stream came in, under its number, among the first inputs. */
  ghost predicate AllCameIn(inputs: seq<Splitter.Input>, read: seq<Bytes>) {
    forall k :: 0 <= k < |read| ==> read[k] != [] && Splitter.CameIn(inputs, Wrap(k + 0), read[k])
  }

  /**
   Completeness of the relay.  Without a failed write and without a gap timeout, the client is given the whole
   stream if and only if every chunk of it came in before the relay stopped.
   */
  lemma {:induction false} RelayComplete(inputs: seq<Splitter.Input>, handled: nat, ending: Splitter.Ending, calls: seq<Call>,
                                         written: seq<Bytes>, total: nat, read: seq<Bytes>)
    requires Splitter.Relayed(inputs, handled, ending, calls, written, total) && !ending.WriteFailed?
    requires Carries(inputs, read) && |read| <= MAX_SEQ && NoSkip(0, calls)
    ensures written == read <==> AllCameIn(inputs[..handled], read)
  {
    RelayWritesSelection(inputs, handled, ending, calls, written, total, read);
    RelayedCalls(inputs, handled, calls, read);
    Splitter.RelayIsDry(inputs[..handled]);
    ReordererComplete(0, calls, read);
    forall k | 0 <= k < |read|
      ensures Ins(Wrap(k + 0), read[k]) in calls <==> read[k] != [] && Splitter.CameIn(inputs[..handled], Wrap(k + 0), read[k])
    {
      Splitter.ReplayInsertsIff(inputs[..handled], Wrap(k + 0), read[k]);
    }
  }

  /** The data frames the relay received are reverse frames that state `h` sent. */
  ghost predicate Received(w: World, id: u32, h: nat, inputs: seq<Splitter.Input>) {
    h < |w.server.heap| && forall i :: 0 <= i < |inputs| && inputs[i].Incoming? && Splitter.CarriesData(inputs[i].frame) ==>
      Reverse(id, h, inputs[i].frame.num, inputs[i].frame.payload) in w.reverse
  }

  /**
   The bytes written to the client, in every run: a relay that received frames of one state, any of them in any
   order, number and interleaving with ticks and failing writes, writes an in-order, at-most-once selection of
   what that state read from upstream; without a gap timeout and a failed write it is everything if and only if
   everything came in.
   */
  lemma {:induction false} RelayInEveryRun(es: seq<Event>, id: u32, h: nat, inputs: seq<Splitter.Input>, handled: nat,
                                           ending: Splitter.Ending, calls: seq<Call>, written: seq<Bytes>, total: nat)
    requires Exec(es).Some? && Received(Exec(es).value, id, h, inputs)
    requires |Exec(es).value.server.heap[h].upstream| <= MAX_SEQ
    requires Splitter.Relayed(inputs, handled, ending, calls, written, total)
    ensures var read := Exec(es).value.server.heap[h].upstream;
            && written == Payloads(Run(0, calls).log) && Selects(read, Run(0, calls).log, 0)
            && total <= |Flatten(written)| <= |Flatten(read)|
            && (NoSkip(0, calls) ==> Flatten(written) <= Flatten(read))
            && (NoSkip(0, calls) && !ending.WriteFailed? ==> (written == read <==> AllCameIn(inputs[..handled], read)))
  {
    ReceivedIsCarried(es, id, h, inputs);
    var read := Exec(es).value.server.heap[h].upstream;
    RelayWritesSelection(inputs, handled, ending, calls, written, total, read);
    if NoSkip(0, calls) && !ending.WriteFailed? {
      RelayComplete(inputs, handled, ending, calls, written, total, read);
    }
  }

  lemma {:induction false} ReceivedIsCarried(es: seq<Event>, id: u32, h: nat, inputs: seq<Splitter.Input>)
    requires Exec(es).Some? && Received(Exec(es).value, id, h, inputs)
    ensures Carries(inputs, Exec(es).value.server.heap[h].upstream)
  {
    var w := Exec(es).value;
    var read := w.server.heap[h].upstream;
    Reachable(es);
    forall i | 0 <= i < |inputs| && inputs[i].Incoming? && Splitter.CarriesData(inputs[i].frame)
      ensures exists k :: 0 <= k < |read| && read[k] == inputs[i].frame.payload && inputs[i].frame.num == Wrap(k + 0)
    {
      var f := Reverse(id, h, inputs[i].frame.num, inputs[i].frame.payload);
      assert SentReverse(w.server, f);
      var k :| 0 <= k < |read| && read[k] == f.data && f.num == Wrap(k);
      assert f.num == Wrap(k + 0);
    }
  }

  // ------------------------------------------------------------------ the server's tables

  /** The i-th event of the run takes state `h` out of the table without cancelling it. */
  ghost predicate UnlinkedAt(es: seq<Event>, i: nat, h: nat) {
    i < |es| && Exec(es[..i]).Some? && es[i].Serve? && S.Unlinks(Exec(es[..i]).value.server, es[i].e, h)
  }

  /** The removal of state `h` still owes its cancel: the state was taken out of the table and not cancelled since. */
  ghost predicate Owed(es: seq<Event>, h: nat) {
    exists i: nat :: OwedSince(es, i, h)
  }

  ghost predicate OwedSince(es: seq<Event>, i: nat, h: nat) {
    UnlinkedAt(es, i, h) && forall j :: i < j < |es| ==> es[j] != Serve(S.Cancel(h))
  }

  lemma {:induction false} OwedSnoc(es: seq<Event>, e: Event, h: nat)
    requires Exec(es).Some?
    ensures Owed(es + [e], h)
            <==> (e.Serve? && S.Unlinks(Exec(es).value.server, e.e, h)) || (Owed(es, h) && e != Serve(S.Cancel(h)))
  {
    var all := es + [e];
    assert all[..|es|] == es && all[|es|] == e;
    forall i: nat | i < |es| ensures UnlinkedAt(all, i, h) <==> UnlinkedAt(es, i, h) {
      assert all[..i] == es[..i] && all[i] == es[i];
    }
    if i: nat :| OwedSince(all, i, h) {
      OwedBefore(es, e, h, i);
    }
    if e.Serve? && S.Unlinks(Exec(es).value.server, e.e, h) {
      assert OwedSince(all, |es|, h);
    }
    if i: nat :| OwedSince(es, i, h) && e != Serve(S.Cancel(h)) {
      assert OwedSince(all, i, h);
    }
  }

  lemma {:induction false} OwedBefore(es: seq<Event>, e: Event, h: nat, i: nat)
    requires UnlinkedAt(es + [e], i, h) && (i < |es| ==> UnlinkedAt(es, i, h))
    requires forall j :: i < j <= |es| ==> (es + [e])[j] != Serve(S.Cancel(h))
    requires Exec(es).Some?
    ensures (e.Serve? && S.Unlinks(Exec(es).value.server, e.e, h)) || (Owed(es, h) && e != Serve(S.Cancel(h)))
  {
    var all := es + [e];
    if i < |es| {
      assert all[|es|] == e;
      assert forall j :: i < j < |es| ==> es[j] == all[j];
      assert OwedSince(es, i, h);
    } else {
      assert all[..|es|] == es;
    }
  }

  lemma {:induction false} OwedExists(es: seq<Event>, h: nat)
    requires Exec(es).Some? && Owed(es, h)
    ensures h < |Exec(es).value.server.heap|
    decreases |es|
  {
    var i: nat :| OwedSince(es, i, h);
    var n := |es| - 1;
    assert es == es[..n] + [es[n]];
    OwedSnoc(es[..n], es[n], h);
    HeapStays(es[..n], es[n], h);
    if Owed(es[..n], h) {
      OwedExists(es[..n], h);
    }
  }

  lemma {:induction false} HeapStays(es: seq<Event>, e: Event, h: nat)
    requires Exec(es + [e]).Some? && Exec(es).Some?
    ensures |Exec(es).value.server.heap| <= |Exec(es + [e]).value.server.heap|
    ensures e.Serve? && S.Unlinks(Exec(es).value.server, e.e, h) ==> h < |Exec(es).value.server.heap|
  {
    Reachable(es);
    ExecLast(es, e);
    if e.Serve? {
      S.LifecycleStep(Exec(es).value.server, e.e);
    }
  }

  /**
   Exactly which states are neither in the table nor cancelled: in every run, a state ever created is the current
   entry of its identifier or has been cancelled if and only if no removal still owes its cancel.
   */
  lemma {:induction false} CurrentOrCancelledIff(es: seq<Event>, h: nat)
    requires Exec(es).Some? && h < |Exec(es).value.server.heap|
    ensures S.Kept(Exec(es).value.server, h) <==> !Owed(es, h)
    decreases |es|
  {
    if es != [] {
      var n := |es| - 1;
      assert es == es[..n] + [es[n]];
      if h < |Exec(es[..n]).value.server.heap| {
        CurrentOrCancelledIff(es[..n], h);
      }
      KeptSnoc(es[..n], es[n], h);
    }
  }

  lemma {:induction false} KeptSnoc(es: seq<Event>, e: Event, h: nat)
    requires Exec(es + [e]).Some? && h < |Exec(es + [e]).value.server.heap| && Exec(es).Some?
    requires h < |Exec(es).value.server.heap| ==> (S.Kept(Exec(es).value.server, h) <==> !Owed(es, h))
    ensures S.Kept(Exec(es + [e]).value.server, h) <==> !Owed(es + [e], h)
  {
    var s := Exec(es).value.server;
    ExecLast(es, e);
    OwedSnoc(es, e, h);
    Reachable(es);
    if e.Serve? {
      S.KeptStep(s, e.e, h);
      if h >= |s.heap| {
        NewIsNotOwed(es, h);
      }
    }
  }

  lemma {:induction false} NewIsNotOwed(es: seq<Event>, h: nat)
    requires Exec(es).Some? && h >= |Exec(es).value.server.heap|
    ensures !Owed(es, h) && forall e :: !S.Unlinks(Exec(es).value.server, e, h)
  {
    Reachable(es);
    if Owed(es, h) {
      OwedExists(es, h);
    }
  }

  /** Every removal of the run has been followed by its cancel. */
  ghost predicate CancelsFollow(es: seq<Event>) {
    forall i: nat, h: nat :: UnlinkedAt(es, i, h) ==> exists j :: i < j < |es| && es[j] == Serve(S.Cancel(h))
  }

  /** In runs in which every removal was followed by its cancel, every state is current or cancelled. */
  lemma {:induction false} CurrentOrCancelled(es: seq<Event>, h: nat)
    requires Exec(es).Some? && h < |Exec(es).value.server.heap| && CancelsFollow(es)
    ensures S.Current(Exec(es).value.server, h) <==> !Exec(es).value.server.heap[h].cancelled
  {
    CurrentOrCancelledIff(es, h);
    Reachable(es);
  }

  /**
   In every run, every connection state ever created is the current entry for its identifier or has left the
   table; it has left if and only if it is cancelled or its removal still owes the cancel, and never both; and a
   source is listed only for connections it carried a frame for.
   */
  lemma {:induction false} ServerTables(es: seq<Event>, h: nat)
    requires Exec(es).Some? && h < |Exec(es).value.server.heap|
    ensures var w := Exec(es).value;
            var c := w.server.heap[h];
            && (S.Current(w.server, h) <==> !c.leaving)
            && (c.leaving <==> c.cancelled || Owed(es, h)) && !(c.cancelled && Owed(es, h))
            && (forall src :: src in c.sources ==> c.id in ServedBy(w, src))
            && (w.tidy ==> Distinct(c.sources))
  {
    Reachable(es);
    CurrentOrCancelledIff(es, h);
    var w := Exec(es).value;
    assert ConnInv(w, w.server.heap[h]);
  }

  /**
   If every SYN was the first frame of its connection on its source, then once a source has died it is in no
   current connection's list, and right after its clean-up every connection it served that is still current
   has another source.
   */
  lemma {:induction false} DeadSourcesAreGone(es: seq<Event>, src: S.Source, served: set<u32>)
    requires es != [] && es[|es| - 1] == Serve(S.Death(src, served))
    requires Exec(es).Some? && Exec(es).value.tidy
    ensures var s := Exec(es).value.server;
            forall id :: id in s.conns ==>
              src !in s.heap[s.conns[id]].sources && (id in served ==> s.heap[s.conns[id]].sources != [])
  {
    Reachable(es);
    Reachable(es[..|es| - 1]);
    var before, s := Exec(es[..|es| - 1]).value, Exec(es).value.server;
    forall id | id in s.conns
      ensures src !in s.heap[s.conns[id]].sources && (id in served ==> s.heap[s.conns[id]].sources != [])
    {
      DeathInWorld(before, src, served, id);
    }
  }

  lemma {:induction false} DeathInWorld(w: World, src: S.Source, served: set<u32>, id: u32)
    requires Inv(w) && Enabled(w, Serve(S.Death(src, served)))
    requires var w' := Tunnel.Apply(w, Serve(S.Death(src, served))); Inv(w') && w'.tidy && id in w'.server.conns
    ensures var s := Tunnel.Apply(w, Serve(S.Death(src, served))).server;
            s.conns[id] < |s.heap|
            && src !in s.heap[s.conns[id]].sources && (id in served ==> s.heap[s.conns[id]].sources != [])
  {
    var w' := Tunnel.Apply(w, Serve(S.Death(src, served)));
    assert S.Current(w'.server, w'.server.conns[id]);
    assert NoDeadSource(w', w'.server.heap[w'.server.conns[id]]);
    if id in served {
      S.DeathIsExact(w.server, src, served, id);
    }
  }
}
