/** Concrete runs that show why the theorems about all runs need their hypotheses. */
module Limits {
  import opened Basics
  import opened Lists
  import opened Reorder
  import opened ReorderGaps
  import WriteQueue
  import LateConnect
  import S = Server
  import Codec
  import opened Tunnel
  import opened EndToEnd

  predicate Same(a: World, b: World) {
    && a.clients == b.clients && a.server.conns == b.server.conns && a.server.heap == b.server.heap
    && a.reverse == b.reverse && a.served == b.served && a.dead == b.dead && a.tidy == b.tidy
  }

  /** Extend a run by one possible event. */
  lemma {:induction false} ExtendsRun(es: seq<Event>, w: World, e: Event, w': World)
    requires Exec(es) == Some(w) && Enabled(w, e) && Same(Tunnel.Apply(w, e), w')
    ensures Exec(es + [e]) == Some(w')
  {
    assert (es + [e])[..|es|] == es;
  }

  /** The smallest well-formed SYN payload: an empty domain name and port 0. */
  const SYN: Bytes := [0x03, 0x00, 0x00, 0x00]

  const R1 := Reverse(7, 0, 0, [1])
  const R2 := Reverse(7, 1, 0, [2])
  const R3 := Reverse(7, 1, 1, [3])

  /** The world with the given calls on the client's reorderer, connection table, states, frames and sources. */
  function At(calls: seq<Call>, conns: map<u32, nat>, heap: seq<S.Conn>, reverse: set<Reverse>, served: map<S.Source, set<u32>>): World {
    World(map[7 := Client(SYN, [], false, calls)], S.Server(conns, heap), reverse, served, {}, true)
  }

  function First(): S.Conn {
    S.OnUpstream(S.NewConn(7, 0, 0, 0), [1], 0)
  }

  function Removed(): S.Conn {
    S.Discard(First())
  }

  function Second(chunks: seq<Bytes>): S.Conn {
    S.NewConn(7, 0, 1, 0).(txSeq := Wrap(|chunks|), upstream := chunks)
  }

  lemma {:induction false} RegistersOnce() returns (es: seq<Event>)
    ensures Exec(es) == Some(At([], map[7 := 0], [S.NewConn(7, 0, 0, 0)], {}, map[0 := {7}]))
  {
    es := [];
    assert Codec.DecodeSyn(SYN).Some?;
    var w1 := At([], map[], [], {}, map[]);
    ExtendsRun(es, Start(), Open(7, SYN), w1);
    es := es + [Open(7, SYN)];
    var w2 := At([], map[7 := 0], [S.NewConn(7, 0, 0, 0)], {}, map[0 := {7}]);
    assert ServedBy(w1, 0) + {7} == {7};
    ExtendsRun(es, w1, Serve(S.Syn(7, 0, SYN, 0, 0)), w2);
    es := es + [Serve(S.Syn(7, 0, SYN, 0, 0))];
  }

  /** The first state of connection 7 reads [1] from upstream. */
  lemma {:induction false} FirstStateReads() returns (es: seq<Event>)
    ensures Exec(es) == Some(At([], map[7 := 0], [First()], {R1}, map[0 := {7}]))
  {
    es := RegistersOnce();
    var w2 := At([], map[7 := 0], [S.NewConn(7, 0, 0, 0)], {}, map[0 := {7}]);
    var w3 := At([], map[7 := 0], [First()], {R1}, map[0 := {7}]);
    ExtendsRun(es, w2, Serve(S.Upstream(0, [1], 0)), w3);
    es := es + [Serve(S.Upstream(0, [1], 0))];
  }

  /** It is taken out of the table, and for a moment it is neither in the table nor cancelled. */
  lemma {:induction false} LeftUncancelled() returns (es: seq<Event>)
    ensures Exec(es) == Some(At([], map[], [First().(leaving := true)], {R1}, map[0 := {7}]))
    ensures !S.Current(Exec(es).value.server, 0) && !Exec(es).value.server.heap[0].cancelled && Owed(es, 0)
  {
    es := FirstStateReads();
    var w3 := At([], map[7 := 0], [First()], {R1}, map[0 := {7}]);
    var left := At([], map[], [First().(leaving := true)], {R1}, map[0 := {7}]);
    ExtendsRun(es, w3, Serve(S.Unlink(7)), left);
    es := es + [Serve(S.Unlink(7))];
    CurrentOrCancelledIff(es, 0);
  }

  /** Then its cancel follows. */
  lemma {:induction false} FirstStateIsRemoved() returns (es: seq<Event>)
    ensures Exec(es) == Some(At([], map[], [Removed()], {R1}, map[0 := {7}]))
  {
    es := LeftUncancelled();
    var left := At([], map[], [First().(leaving := true)], {R1}, map[0 := {7}]);
    var w4 := At([], map[], [Removed()], {R1}, map[0 := {7}]);
    ExtendsRun(es, left, Serve(S.Cancel(0)), w4);
    es := es + [Serve(S.Cancel(0))];
  }

  /** A SYN that arrives late, over another source, recreates the connection. */
  lemma {:induction false} LateSynRecreates() returns (es: seq<Event>)
    ensures Exec(es) == Some(At([], map[7 := 1], [Removed(), Second([])], {R1}, map[0 := {7}, 1 := {7}]))
  {
    es := FirstStateIsRemoved();
    assert Codec.DecodeSyn(SYN).Some?;
    var w4 := At([], map[], [Removed()], {R1}, map[0 := {7}]);
    var w5 := At([], map[7 := 1], [Removed(), Second([])], {R1}, map[0 := {7}, 1 := {7}]);
    assert ServedBy(w4, 1) + {7} == {7};
    ExtendsRun(es, w4, Serve(S.Syn(7, 0, SYN, 1, 0)), w5);
    es := es + [Serve(S.Syn(7, 0, SYN, 1, 0))];
  }

  lemma {:induction false} Reads(es: seq<Event>, chunks: seq<Bytes>, data: Bytes, reverse: set<Reverse>) returns (es': seq<Event>)
    requires Exec(es) == Some(At([], map[7 := 1], [Removed(), Second(chunks)], reverse, map[0 := {7}, 1 := {7}]))
    ensures Exec(es') == Some(At([], map[7 := 1], [Removed(), Second(chunks + [data])],
                                 reverse + {Reverse(7, 1, Wrap(|chunks|), data)}, map[0 := {7}, 1 := {7}]))
  {
    var heap, heap' := [Removed(), Second(chunks)], [Removed(), Second(chunks + [data])];
    var w := At([], map[7 := 1], heap, reverse, map[0 := {7}, 1 := {7}]);
    var w' := At([], map[7 := 1], heap', reverse + {Reverse(7, 1, Wrap(|chunks|), data)}, map[0 := {7}, 1 := {7}]);
    WrapInc(|chunks|);
    assert S.OnUpstream(heap[1], data, 0) == heap'[1];
    ExtendsRun(es, w, Serve(S.Upstream(1, data, 0)), w');
    es' := es + [Serve(S.Upstream(1, data, 0))];
  }

  /** The second state reads [2] and [3] from its own upstream. */
  lemma {:induction false} SecondStateReads() returns (es: seq<Event>)
    ensures Exec(es) == Some(At([], map[7 := 1], [Removed(), Second([[2], [3]])], {R1, R2, R3}, map[0 := {7}, 1 := {7}]))
  {
    es := LateSynRecreates();
    var none: seq<Bytes> := [];
    es := Reads(es, none, [2], {R1});
    assert none + [[2]] == [[2]] && {R1} + {R2} == {R1, R2};
    es := Reads(es, [[2]], [3], {R1, R2});
    assert [[2]] + [[3]] == [[2], [3]] && {R1, R2} + {R3} == {R1, R2, R3};
  }

  function HeardCalls(): seq<Call> {
    [Ins(0, [1]), Nxt(0), Ins(1, [3]), Nxt(0)]
  }

  lemma {:induction false} MixedLog()
    ensures Run(0, HeardCalls()).log == [Entry(0, [1]), Entry(1, [3])]
  {
    RunSnoc(0, [], Ins(0, [1]));
    assert [] + [Ins(0, [1])] == [Ins(0, [1])];
    RunSnoc(0, [Ins(0, [1])], Nxt(0));
    assert [Ins(0, [1])] + [Nxt(0)] == [Ins(0, [1]), Nxt(0)];
    RunSnoc(0, [Ins(0, [1]), Nxt(0)], Ins(1, [3]));
    assert [Ins(0, [1]), Nxt(0)] + [Ins(1, [3])] == [Ins(0, [1]), Nxt(0), Ins(1, [3])];
    RunSnoc(0, [Ins(0, [1]), Nxt(0), Ins(1, [3])], Nxt(0));
    assert [Ins(0, [1]), Nxt(0), Ins(1, [3])] + [Nxt(0)] == HeardCalls();
  }

  const BOTH_STATES := [Removed(), Second([[2], [3]])]

  function WorldAfter(calls: seq<Call>): World {
    At(calls, map[7 := 1], BOTH_STATES, {R1, R2, R3}, map[0 := {7}, 1 := {7}])
  }

  lemma {:induction false} ExtendsHearing(es: seq<Event>, calls: seq<Call>, e: Event, x: Call)
    requires Exec(es) == Some(WorldAfter(calls))
    requires (e == Next(7, 0) && x == Nxt(0)) || (e.Receive? && e.f in {R1, R2, R3} && x == Ins(e.f.num, e.f.data))
    ensures Exec(es + [e]) == Some(WorldAfter(calls + [x]))
  {
    ExtendsRun(es, WorldAfter(calls), e, WorldAfter(calls + [x]));
  }

  /** The client hears the first frame of the first state and the second frame of the second one. */
  lemma {:induction false} HearsBothStates() returns (es: seq<Event>)
    ensures Exec(es) == Some(WorldAfter(HeardCalls()))
  {
    es := SecondStateReads();
    ExtendsHearing(es, [], Receive(R1), Ins(0, [1]));
    es := es + [Receive(R1)];
    assert [] + [Ins(0, [1])] == [Ins(0, [1])];
    ExtendsHearing(es, [Ins(0, [1])], Next(7, 0), Nxt(0));
    es := es + [Next(7, 0)];
    assert [Ins(0, [1])] + [Nxt(0)] == [Ins(0, [1]), Nxt(0)];
    ExtendsHearing(es, [Ins(0, [1]), Nxt(0)], Receive(R3), Ins(1, [3]));
    es := es + [Receive(R3)];
    assert [Ins(0, [1]), Nxt(0)] + [Ins(1, [3])] == [Ins(0, [1]), Nxt(0), Ins(1, [3])];
    ExtendsHearing(es, [Ins(0, [1]), Nxt(0), Ins(1, [3])], Next(7, 0), Nxt(0));
    es := es + [Next(7, 0)];
    assert [Ins(0, [1]), Nxt(0), Ins(1, [3])] + [Nxt(0)] == HeardCalls();
  }

  /**
   A connection that is recreated while its client is still listening can mix the two upstream streams: the
   client is given [1] from the first state and then [3] from the second, which neither of them read in a row.
   */
  lemma {:induction false} RecreationMixesStreams() returns (es: seq<Event>)
    ensures Exec(es).Some? && 7 in Exec(es).value.clients && |Exec(es).value.server.heap| == 2
    ensures var w := Exec(es).value;
            var log := Run(0, w.clients[7].calls).log;
            && Payloads(log) == [[1], [3]]
            && !Selects(w.server.heap[0].upstream, log, 0)
            && !Selects(w.server.heap[1].upstream, log, 0)
  {
    es := HearsBothStates();
    MixedLog();
    var log := Run(0, HeardCalls()).log;
    assert log[0].data == [1] && log[1].num == 1;
    assert BOTH_STATES[0].upstream == [[1]] && BOTH_STATES[1].upstream == [[2], [3]];
    assert BOTH_STATES[1].upstream[0] != log[0].data;
  }

  // ------------------------------------------------------------------ two handlers overlap

  function AlwaysZero(n: nat): int {
    0
  }

  lemma {:induction false} DrainOfOne(n: u32, data: Bytes, timer: Timer, clock: nat -> int)
    requires n < MAX_SEQ
    ensures var d := Drain(State(n, map[n := data], timer), clock, 0);
            d.state == State(n + 1, map[], Idle) && d.log == [Entry(n, data)]
  {
    var s := State(n, map[n := data], timer);
    var after := State(n + 1, map[], Idle);
    assert map[n := data] - {n} == map[];
    assert Reorder.Next(s, clock(0)) == Taken(after, Some(Entry(n, data)));
    DrainOfNone(n + 1, clock, 1);
  }

  lemma {:induction false} DrainOfNone(n: u32, clock: nat -> int, k: nat)
    ensures Drain(State(n, map[], Idle), clock, k) == Drained(State(n, map[], Idle), [], 1)
  {
  }

  lemma {:induction false} NonEmptyOfOne(e: Entry)
    ensures S.NonEmpty([e]) == if e.data == [] then [] else [e]
  {
    assert [e][..0] == [];
  }

  lemma {:induction false} DrainsOne(c: S.Conn, n: u32, data: Bytes, clock: nat -> int)
    requires n < MAX_SEQ && S.Buffer(c).nextSeq == n && S.Buffer(c).buffer == map[n := data]
    ensures var c' := S.OnDrain(c, clock);
            && c'.batches == c.batches + (if data == [] then [] else [[Entry(n, data)]])
            && S.Buffer(c') == State(n + 1, map[], Idle) && S.Log(c') == S.Log(c) + [Entry(n, data)]
  {
    assert S.Buffer(c) == State(n, map[n := data], S.Buffer(c).timer);
    DrainOfOne(n, data, S.Buffer(c).timer, clock);
    NonEmptyOfOne(Entry(n, data));
    WriteQueue.DrainLog(c, clock);
  }

  /** An empty open connection drains the frame it waits for, into a batch of its own unless the frame is empty. */
  lemma {:induction false} DrainsInTurn(c: S.Conn, src: S.Source, data: Bytes, now: int, clock: nat -> int)
    requires c.queueOpen && S.Buffer(c).buffer == map[] && S.Buffer(c).nextSeq < MAX_SEQ
    ensures var n := S.Buffer(c).nextSeq;
            var c' := S.OnData(c, src, n, data, now, clock);
            && c'.batches == c.batches + (if data == [] then [] else [[Entry(n, data)]])
            && S.Buffer(c') == State(n + 1, map[], Idle) && S.Log(c') == S.Log(c) + [Entry(n, data)]
            && c'.queueOpen && c'.queue == c.queue && c'.pushed == c.pushed && c'.id == c.id
  {
    var n := S.Buffer(c).nextSeq;
    var c1 := c.(sources := if src in c.sources then c.sources else c.sources + [src],
                 lastActive := now, calls := c.calls + [Ins(n, data)]);
    WriteQueue.InsertLog(c, n, data);
    assert map[][n := data] == map[n := data];
    assert S.Buffer(c1) == State(n, map[n := data], S.Buffer(c).timer) && S.Log(c1) == S.Log(c);
    DrainsOne(c1, n, data, clock);
  }

  lemma {:induction false} OpensEmpty(c: S.Conn, clock: nat -> int)
    requires S.Buffer(c).buffer == map[]
    ensures var c' := S.OnReady(c, clock);
            && S.Buffer(c') == State(S.Buffer(c).nextSeq, map[], Idle)
            && c'.queueOpen && c'.queue == [] && c'.batches == c.batches && c'.pushed == c.pushed && c'.id == c.id
            && S.Log(c') == S.Log(c)
  {
    var up := c.(connected := true, queueOpen := true, queue := []);
    assert S.Buffer(up) == S.Buffer(c);
    WriteQueue.DrainLog(up, clock);
    assert Drain(S.Buffer(up), clock, 0) == Drained(State(S.Buffer(c).nextSeq, map[], Idle), [], 1);
  }

  const SENT := map[7 := Client(SYN, [[1], [2]], false, [])]

  /** The world in which connection 7 has sent two chunks and the server has the one state `c` for it. */
  ghost predicate OneConn(w: World, c: S.Conn) {
    && w.clients == SENT && w.server.conns == map[7 := 0] && w.server.heap == [c] && c.id == 7 && w.dead == {}
  }

  lemma {:induction false} Prepared() returns (es: seq<Event>)
    ensures Exec(es).Some? && OneConn(Exec(es).value, S.NewConn(7, 0, 0, 0))
  {
    assert Codec.DecodeSyn(SYN).Some?;
    var none: seq<Bytes> := [];
    es := [];
    ExecSnoc(es, Open(7, SYN));
    es := es + [Open(7, SYN)];
    assert Exec(es).value.clients == map[7 := Client(SYN, [], false, [])];
    ExecSnoc(es, Send(7, [1]));
    es := es + [Send(7, [1])];
    assert none + [[1]] == [[1]];
    assert Exec(es).value.clients == map[7 := Client(SYN, [[1]], false, [])];
    ExecSnoc(es, Send(7, [2]));
    es := es + [Send(7, [2])];
    assert [[1]] + [[2]] == [[1], [2]];
    assert Exec(es).value.clients == SENT;
    ExecSnoc(es, Serve(S.Syn(7, 0, SYN, 0, 0)));
    es := es + [Serve(S.Syn(7, 0, SYN, 0, 0))];
  }

  lemma {:induction false} StepOf(es: seq<Event>, c: S.Conn, e: S.Event)
    requires Exec(es).Some? && OneConn(Exec(es).value, c)
    requires (e.Ready? && !c.connected) || (e.Data? && SentData(SENT, 7, e.num, e.data)) || (e.Push? && e.i < |c.batches| && c.batches[e.i] != [])
    requires e.h == 0
    ensures Exec(es + [Serve(e)]).Some? && OneConn(Exec(es + [Serve(e)]).value, S.OnConn(c, e))
  {
    Reachable(es);
    S.OnConnKeeps(c, e);
    ExecSnoc(es, Serve(e));
  }

  /** One handler has drained the first chunk and not pushed it yet. */
  lemma {:induction false} OneDrained() returns (es: seq<Event>, c: S.Conn)
    ensures Exec(es).Some? && OneConn(Exec(es).value, c)
    ensures c.batches == [[Entry(1, [1])]] && c.queue == [] && c.pushed == []
    ensures c.queueOpen && S.Buffer(c) == State(2, map[], Idle)
  {
    es := Prepared();
    c := S.NewConn(7, 0, 0, 0);
    OpensEmpty(c, AlwaysZero);
    StepOf(es, c, S.Ready(0, AlwaysZero));
    es, c := es + [Serve(S.Ready(0, AlwaysZero))], S.OnReady(c, AlwaysZero);
    assert SENT[7].chunks[0] == [1];
    DrainsInTurn(c, 0, [1], 0, AlwaysZero);
    StepOf(es, c, S.Data(0, 0, 1, [1], 0, AlwaysZero));
    es, c := es + [Serve(S.Data(0, 0, 1, [1], 0, AlwaysZero))], S.OnData(c, 0, 1, [1], 0, AlwaysZero);
  }

  /** Two handlers of one connection that have both drained and not pushed yet. */
  lemma {:induction false} Overlapping() returns (es: seq<Event>, c: S.Conn)
    ensures Exec(es).Some? && OneConn(Exec(es).value, c)
    ensures c.batches == [[Entry(1, [1])], [Entry(2, [2])]] && c.queue == [] && c.pushed == []
  {
    es, c := OneDrained();
    assert SENT[7].chunks[1] == [2];
    DrainsInTurn(c, 0, [2], 0, AlwaysZero);
    StepOf(es, c, S.Data(0, 0, 2, [2], 0, AlwaysZero));
    es, c := es + [Serve(S.Data(0, 0, 2, [2], 0, AlwaysZero))], S.OnData(c, 0, 2, [2], 0, AlwaysZero);
  }

  /** A run in which the write queue accepts a connection's two chunks in the wrong order. */
  lemma {:induction false} OverlapSwapsChunks() returns (es: seq<Event>)
    ensures Exec(es).Some? && |Exec(es).value.server.heap| == 1
    ensures Exec(es).value.server.heap[0].pushed == [Entry(2, [2]), Entry(1, [1])]
  {
    var c;
    es, c := Overlapping();
    StepOf(es, c, S.Push(0, 1));
    es, c := es + [Serve(S.Push(0, 1))], S.OnPush(c, 1);
    assert c.batches == [[Entry(1, [1])]];
    StepOf(es, c, S.Push(0, 0));
    es := es + [Serve(S.Push(0, 0))];
  }

  // ------------------------------------------------------------------ an empty frame and a late upstream

  const EMPTY_FIRST := [Entry(1, []), Entry(2, [5])]

  function Arrivals(n: nat): seq<LateConnect.Arrival> {
    seq(n, _ => LateConnect.Arrival(0, 0, AlwaysZero))
  }

  /** One more frame, before or after the upstream became ready. */
  lemma {:induction false} FeedsOn(id: u32, frames: seq<Entry>, f: Entry, readyAt: nat)
    requires |frames| < 2 && readyAt != |frames| + 1
    ensures LateConnect.Feed(id, 0, frames + [f], Arrivals(2), AlwaysZero, readyAt)
            == S.OnData(LateConnect.Feed(id, 0, frames, Arrivals(2), AlwaysZero, readyAt), 0, f.num, f.data, 0, AlwaysZero)
  {
    LateConnect.FeedOne(id, 0, frames, f, Arrivals(2), AlwaysZero, readyAt);
  }

  /** The connection after some of the frames when it was ready from the start. */
  ghost predicate Followed(c: S.Conn, n: u32, log: seq<Entry>) {
    c.queueOpen && S.Buffer(c) == State(n, map[], Idle) && S.Log(c) == log
  }

  lemma {:induction false} FollowsNone(id: u32)
    ensures Followed(LateConnect.Feed(id, 0, [], Arrivals(2), AlwaysZero, 0), 1, [])
  {
    OpensEmpty(S.NewConn(id, 0, 0, 0), AlwaysZero);
  }

  lemma {:induction false} FollowsOn(id: u32, frames: seq<Entry>, n: u32, data: Bytes)
    requires |frames| < 2 && n < MAX_SEQ
    requires Followed(LateConnect.Feed(id, 0, frames, Arrivals(2), AlwaysZero, 0), n, frames)
    ensures Followed(LateConnect.Feed(id, 0, frames + [Entry(n, data)], Arrivals(2), AlwaysZero, 0), n + 1, frames + [Entry(n, data)])
  {
    FeedsOn(id, frames, Entry(n, data), 0);
    DrainsInTurn(LateConnect.Feed(id, 0, frames, Arrivals(2), AlwaysZero, 0), 0, data, 0, AlwaysZero);
  }

  lemma {:induction false} ReadyEarly(id: u32)
    ensures S.Log(LateConnect.Feed(id, 0, EMPTY_FIRST, Arrivals(2), AlwaysZero, 0)) == EMPTY_FIRST
  {
    var none: seq<Entry> := [];
    FollowsNone(id);
    FollowsOn(id, none, 1, []);
    FollowsOn(id, none + [Entry(1, [])], 2, [5]);
    assert none + [Entry(1, [])] + [Entry(2, [5])] == EMPTY_FIRST;
  }

  lemma {:induction false} ReadyLate(id: u32)
    ensures S.Log(LateConnect.Feed(id, 0, EMPTY_FIRST, Arrivals(2), AlwaysZero, 2)) == [Entry(1, [])]
  {
    var c := S.NewConn(id, 0, 0, 0);
    var c1 := S.OnData(c, 0, 1, [], 0, AlwaysZero);
    var c2 := S.OnData(c1, 0, 2, [5], 0, AlwaysZero);
    WriteQueue.InsertLog(c, 1, []);
    WriteQueue.InsertLog(c1, 2, [5]);
    assert S.Buffer(c1) == Insert(S.Buffer(c), 1, []) && S.Buffer(c2) == Insert(S.Buffer(c1), 2, [5]);
    var up := c2.(connected := true, queueOpen := true, queue := []);
    assert S.Buffer(up) == State(1, map[1 := [], 2 := [5]], Idle) && S.Log(up) == [];
    WriteQueue.DrainLog(up, AlwaysZero);
    assert EMPTY_FIRST[..1][..0] == [] && EMPTY_FIRST[..2] == EMPTY_FIRST;
    assert LateConnect.Feed(id, 0, [], Arrivals(2), AlwaysZero, 2) == c;
    assert LateConnect.Feed(id, 0, EMPTY_FIRST[..1], Arrivals(2), AlwaysZero, 2) == c1;
  }

  /** With an empty frame it does matter when the upstream becomes ready: a late flush stops at the empty frame. */
  lemma {:induction false} EmptyFrameDelaysFlush(id: u32)
    ensures S.Log(LateConnect.Feed(id, 0, EMPTY_FIRST, Arrivals(2), AlwaysZero, 0))
            != S.Log(LateConnect.Feed(id, 0, EMPTY_FIRST, Arrivals(2), AlwaysZero, 2))
  {
    ReadyEarly(id);
    ReadyLate(id);
  }

  // ------------------------------------------------------------------ a source registers twice

  /** A run in which a source sends the SYN of a connection twice and is still listed after its own clean-up. */
  lemma {:induction false} DeadSourceStaysListed() returns (es: seq<Event>)
    ensures Exec(es).Some? && 0 in Exec(es).value.dead
    ensures var s := Exec(es).value.server; 7 in s.conns && s.conns[7] < |s.heap| && s.heap[s.conns[7]].sources == [0]
  {
    es := Prepared();
    var c := S.NewConn(7, 0, 0, 0);
    var twice := c.(sources := [0, 0]);
    Reachable(es);
    ExecSnoc(es, Serve(S.Syn(7, 0, SYN, 0, 0)));
    es := es + [Serve(S.Syn(7, 0, SYN, 0, 0))];
    assert c.sources + [0] == [0, 0] && c.(sources := c.sources + [0]) == twice;
    assert Exec(es).value.server.heap == [twice];
    Reachable(es);
    var served := ServedBy(Exec(es).value, 0) + {7};
    ExecSnoc(es, Serve(S.Death(0, served)));
    es := es + [Serve(S.Death(0, served))];
    assert RemoveFirst([0, 0], 0) == [0];
  }
}
