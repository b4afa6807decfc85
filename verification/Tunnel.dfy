/**
 Both ends of the packet-split tunnel and everything in between.  Frames that were sent may be delivered any
 number of times, in any order, from any tunnel, or never; server goroutines interleave at their critical
 sections; sources fail and die; clients drain their reorder buffers one `Next` at a time.
 */
module Tunnel {
  import opened Basics
  import opened Lists
  import opened Reorder
  import S = Server
  import WriteQueue

  /** A client connection: the chunks it read and numbered, and the calls made on its reverse reorderer. */
  datatype Client = Client(syn: Bytes, chunks: seq<Bytes>, closed: bool, calls: seq<Call>)

  /** A reverse data frame together with the server state that produced it. */
  datatype Reverse = Reverse(id: u32, h: nat, num: u32, data: Bytes)

  datatype World = World(
    clients: map<u32, Client>,
    server: S.Server,
    reverse: set<Reverse>,                 // every reverse frame ever sent
    served: map<S.Source, set<u32>>,       // the identifiers each source has carried a frame for
    dead: set<S.Source>,
    tidy: bool)                            // each SYN was the first frame of its identifier on its source

  datatype Event =
    | Open(id: u32, syn: Bytes)
    | Send(id: u32, chunk: Bytes)
    | Close(id: u32)
    | Serve(e: S.Event)
    | Receive(f: Reverse)
    | Next(id: u32, now: int)

  function Start(): World {
    World(map[], S.Empty(), {}, map[], {}, true)
  }

  // ------------------------------------------------------------------ what was sent

  /** The SYN takes number 0 and the k-th chunk (from 0) number k+1, as a wrapping 32-bit counter. */
  ghost predicate SentData(clients: map<u32, Client>, id: u32, num: u32, data: Bytes) {
    id in clients && exists k :: 0 <= k < |clients[id].chunks| && clients[id].chunks[k] == data && num == Wrap(k + 1)
  }

  ghost predicate SentReverse(s: S.Server, f: Reverse) {
    && f.h < |s.heap| && f.id == s.heap[f.h].id
    && exists k :: 0 <= k < |s.heap[f.h].upstream| && s.heap[f.h].upstream[k] == f.data && f.num == Wrap(k)
  }

  function ServedBy(w: World, src: S.Source): set<u32> {
    if src in w.served then w.served[src] else {}
  }

  /** The source a server event's frame arrived from, with the connection it belongs to. */
  function Arrival(s: S.Server, e: S.Event): Option<(S.Source, u32)>
    requires S.Enabled(s, e)
  {
    match e
    case Syn(id, _, _, src, _) => Some((src, id))
    case Data(h, src, _, _, _, _) => Some((src, s.heap[h].id))
    case Fin(h, src, _) => Some((src, s.heap[h].id))
    case _ => None
  }

  ghost predicate Enabled(w: World, e: Event) {
    match e
    case Open(id, _) => id !in w.clients
    case Send(id, _) => id in w.clients && !w.clients[id].closed
    case Close(id) => id in w.clients
    case Receive(f) => f in w.reverse && f.id in w.clients
    case Next(id, _) => id in w.clients
    case Serve(e) =>
      && S.Enabled(w.server, e)
      && S.Lifecycle(w.server)
      && (Arrival(w.server, e).Some? ==> Arrival(w.server, e).value.0 !in w.dead)
      && match e
         case Syn(id, num, payload, _, _) => id in w.clients && num == 0 && payload == w.clients[id].syn
         case Data(h, _, num, data, _, _) => SentData(w.clients, w.server.heap[h].id, num, data)
         case Fin(h, _, _) => w.server.heap[h].id in w.clients && w.clients[w.server.heap[h].id].closed
         case Death(src, served) => ServedBy(w, src) <= served
         case _ => true
  }

  ghost function Apply(w: World, e: Event): World
    requires Enabled(w, e)
  {
    match e
    case Open(id, syn) => w.(clients := w.clients[id := Client(syn, [], false, [])])
    case Send(id, chunk) => w.(clients := w.clients[id := w.clients[id].(chunks := w.clients[id].chunks + [chunk])])
    case Close(id) => w.(clients := w.clients[id := w.clients[id].(closed := true)])
    case Receive(f) => w.(clients := w.clients[f.id := w.clients[f.id].(calls := w.clients[f.id].calls + [Ins(f.num, f.data)])])
    case Next(id, now) => w.(clients := w.clients[id := w.clients[id].(calls := w.clients[id].calls + [Nxt(now)])])
    case Serve(e) =>
      var arrival := Arrival(w.server, e);
      var served := if arrival.Some? then ServedBy(w, arrival.value.0) else {};
      w.(server := S.Apply(w.server, e),
         reverse := if e.Upstream? then w.reverse + {Reverse(w.server.heap[e.h].id, e.h, w.server.heap[e.h].txSeq, e.data)}
                    else w.reverse,
         served := if arrival.Some? then w.served[arrival.value.0 := served + {arrival.value.1}] else w.served,
         dead := if e.Death? then w.dead + {e.src} else w.dead,
         tidy := w.tidy && (e.Syn? ==> e.id !in served))
  }

  /** The world after a run, provided every event was possible when it happened. */
  ghost function Exec(es: seq<Event>): Option<World> {
    if es == [] then Some(Start())
    else
      match Exec(es[..|es| - 1])
      case None => None
      case Some(w) => if Enabled(w, es[|es| - 1]) then Some(Apply(w, es[|es| - 1])) else None
  }

  lemma {:induction false} ExecLast(es: seq<Event>, e: Event)
    ensures Exec(es + [e])
            == if Exec(es).Some? && Enabled(Exec(es).value, e) then Some(Apply(Exec(es).value, e)) else None
  {
    assert (es + [e])[..|es|] == es;
  }

  lemma {:induction false} ExecSnoc(es: seq<Event>, e: Event)
    requires Exec(es).Some? && Enabled(Exec(es).value, e)
    ensures Exec(es + [e]) == Some(Apply(Exec(es).value, e))
  {
    assert (es + [e])[..|es|] == es;
  }

  // ------------------------------------------------------------------ invariant

  /** A connection state only ever inserted frames its client sent, starting after the SYN's number. */
  ghost predicate Faithful(clients: map<u32, Client>, c: S.Conn) {
    && c.start == 1 && c.id in clients
    && forall x :: x in c.calls && x.Ins? ==> SentData(clients, c.id, x.num, x.data)
  }

  ghost predicate ConnInv(w: World, c: S.Conn) {
    && Faithful(w.clients, c)
    && c.txSeq == Wrap(|c.upstream|)
    && WriteQueue.QueueInv(c)
    && (forall src :: src in c.sources ==> c.id in ServedBy(w, src))
    && (w.tidy ==> Distinct(c.sources))
  }

  ghost predicate ClientInv(w: World, id: u32)
    requires id in w.clients
  {
    forall x :: x in w.clients[id].calls && x.Ins? ==>
      exists f :: f in w.reverse && f.id == id && f.num == x.num && f.data == x.data
  }

  ghost predicate NoDeadSource(w: World, c: S.Conn) {
    forall src :: src in c.sources ==> src !in w.dead
  }

  ghost predicate Inv(w: World) {
    && S.Lifecycle(w.server)
    && (forall h :: 0 <= h < |w.server.heap| ==> ConnInv(w, w.server.heap[h]))
    && (forall f :: f in w.reverse ==> SentReverse(w.server, f))
    && (forall id :: id in w.clients ==> ClientInv(w, id))
    && (w.tidy ==> forall h: nat :: S.Current(w.server, h) ==> NoDeadSource(w, w.server.heap[h]))
  }

  // ------------------------------------------------------------------ client steps

  /** Clients only append: whatever was sent stays sent. */
  ghost predicate Grows(a: map<u32, Client>, b: map<u32, Client>) {
    forall id :: id in a ==> id in b && a[id].chunks <= b[id].chunks
  }

  lemma {:induction false} SentGrows(a: map<u32, Client>, b: map<u32, Client>, id: u32, num: u32, data: Bytes)
    requires Grows(a, b) && SentData(a, id, num, data)
    ensures SentData(b, id, num, data)
  {
    var k :| 0 <= k < |a[id].chunks| && a[id].chunks[k] == data && num == Wrap(k + 1);
    assert b[id].chunks[k] == data;
  }

  lemma {:induction false} ClientsGrow(w: World, w': World)
    requires Inv(w) && w' == w.(clients := w'.clients) && Grows(w.clients, w'.clients)
    requires forall id :: id in w'.clients ==> ClientInv(w', id)
    ensures Inv(w')
  {
    forall h | 0 <= h < |w.server.heap| ensures ConnInv(w', w.server.heap[h]) {
      var c := w.server.heap[h];
      assert ConnInv(w, c);
      forall x | x in c.calls && x.Ins? ensures SentData(w'.clients, c.id, x.num, x.data) {
        SentGrows(w.clients, w'.clients, c.id, x.num, x.data);
      }
      assert forall src :: ServedBy(w', src) == ServedBy(w, src);
    }
    forall h: nat | S.Current(w'.server, h) && w'.tidy ensures NoDeadSource(w', w'.server.heap[h]) {
      assert S.Current(w.server, h) && NoDeadSource(w, w.server.heap[h]);
    }
  }

  lemma {:induction false} ClientStep(w: World, e: Event)
    requires Inv(w) && Enabled(w, e) && !e.Serve?
    ensures Inv(Apply(w, e))
  {
    var w' := Apply(w, e);
    forall id | id in w'.clients ensures ClientInv(w', id) {
      ClientStepAt(w, e, id);
    }
    ClientsGrow(w, w');
  }

  lemma {:induction false} ClientStepAt(w: World, e: Event, id: u32)
    requires Inv(w) && Enabled(w, e) && !e.Serve? && id in Apply(w, e).clients
    ensures ClientInv(Apply(w, e), id)
  {
    if id in w.clients {
      assert ClientInv(w, id);
    }
  }

  // ------------------------------------------------------------------ server steps

  lemma {:induction false} SentReverseKept(s: S.Server, s': S.Server, f: Reverse)
    requires SentReverse(s, f) && |s.heap| <= |s'.heap|
    requires s'.heap[f.h].id == s.heap[f.h].id && s.heap[f.h].upstream <= s'.heap[f.h].upstream
    ensures SentReverse(s', f)
  {
    var k :| 0 <= k < |s.heap[f.h].upstream| && s.heap[f.h].upstream[k] == f.data && f.num == Wrap(k);
    assert s'.heap[f.h].upstream[k] == f.data;
  }

  /** What a step of the server does to each state that existed before it. */
  ghost predicate HeapGrows(s: S.Server, s': S.Server) {
    |s.heap| <= |s'.heap| && forall h :: 0 <= h < |s.heap| ==>
      s'.heap[h].id == s.heap[h].id && s.heap[h].upstream <= s'.heap[h].upstream
  }

  lemma {:induction false} HeapStep(s: S.Server, e: S.Event)
    requires S.Lifecycle(s) && S.Enabled(s, e)
    ensures HeapGrows(s, S.Apply(s, e))
  {
    forall h | 0 <= h < |s.heap|
      ensures S.Apply(s, e).heap[h].id == s.heap[h].id && s.heap[h].upstream <= S.Apply(s, e).heap[h].upstream
    {
      HeapStepAt(s, e, h);
    }
  }

  lemma {:induction false} HeapStepAt(s: S.Server, e: S.Event, h: nat)
    requires S.Lifecycle(s) && S.Enabled(s, e) && h < |s.heap|
    ensures |s.heap| <= |S.Apply(s, e).heap|
    ensures S.Apply(s, e).heap[h].id == s.heap[h].id && s.heap[h].upstream <= S.Apply(s, e).heap[h].upstream
  {
    if S.Local(e) {
      LocalHeapAt(s, e, h);
    }
  }

  lemma {:induction false} LocalHeapAt(s: S.Server, e: S.Event, h: nat)
    requires S.Lifecycle(s) && S.Enabled(s, e) && S.Local(e) && h < |s.heap|
    ensures S.Apply(s, e) == S.Update(s, e.h, S.OnConn(s.heap[e.h], e))
    ensures S.Apply(s, e).heap[h].id == s.heap[h].id && s.heap[h].upstream <= S.Apply(s, e).heap[h].upstream
  {
    S.OnConnKeeps(s.heap[e.h], e);
    UpstreamGrows(s.heap[e.h], e);
  }

  lemma {:induction false} UpstreamGrows(c: S.Conn, e: S.Event)
    requires e.Push? ==> e.i < |c.batches| && c.batches[e.i] != []
    requires e.Pop? ==> c.queue != []
    ensures S.OnConn(c, e).upstream == if e.Upstream? then c.upstream + [e.data] else c.upstream
  {
  }

  /** The calls an event adds to a connection's reorderer: at most one insert, of the frame it carries. */
  lemma {:induction false} OnConnCalls(c: S.Conn, e: S.Event, x: Call)
    requires e.Push? ==> e.i < |c.batches| && c.batches[e.i] != []
    requires e.Pop? ==> c.queue != []
    ensures x.Ins? && x in S.OnConn(c, e).calls ==> x in c.calls || (e.Data? && x == Ins(e.num, e.data))
  {
  }

  /** The sources an event leaves in a connection's list. */
  lemma {:induction false} OnConnSources(c: S.Conn, e: S.Event)
    requires e.Push? ==> e.i < |c.batches| && c.batches[e.i] != []
    requires e.Pop? ==> c.queue != []
    ensures forall src :: src in S.OnConn(c, e).sources ==> src in c.sources || (e.Data? && src == e.src)
    ensures Distinct(c.sources) ==> Distinct(S.OnConn(c, e).sources)
  {
    if e.Drop? && Distinct(c.sources) {
      RemoveFirstDistinct(c.sources, e.src);
    }
  }

  lemma {:induction false} WrapInc(n: nat)
    ensures Inc(Wrap(n)) == Wrap(n + 1)
  {
  }

  lemma {:induction false} LocalFaithful(w: World, e: S.Event)
    requires Inv(w) && Enabled(w, Serve(e)) && S.Local(e)
    ensures Faithful(w.clients, S.OnConn(w.server.heap[e.h], e))
  {
    var c := w.server.heap[e.h];
    var c' := S.OnConn(c, e);
    assert ConnInv(w, c);
    S.OnConnKeeps(c, e);
    forall x | x in c'.calls && x.Ins? ensures SentData(w.clients, c'.id, x.num, x.data) {
      OnConnCalls(c, e, x);
    }
  }

  lemma {:induction false} LocalServed(w: World, e: S.Event, src: S.Source)
    requires Inv(w) && Enabled(w, Serve(e)) && S.Local(e) && src in S.OnConn(w.server.heap[e.h], e).sources
    ensures w.server.heap[e.h].id in ServedBy(Apply(w, Serve(e)), src)
  {
    var c := w.server.heap[e.h];
    assert ConnInv(w, c);
    OnConnSources(c, e);
    if src in c.sources {
      assert c.id in ServedBy(w, src);
    }
  }

  lemma {:induction false} LocalTxSeq(c: S.Conn, e: S.Event)
    requires c.txSeq == Wrap(|c.upstream|)
    requires e.Push? ==> e.i < |c.batches| && c.batches[e.i] != []
    requires e.Pop? ==> c.queue != []
    ensures S.OnConn(c, e).txSeq == Wrap(|S.OnConn(c, e).upstream|)
  {
    WrapInc(|c.upstream|);
  }

  lemma {:induction false} LocalConn(w: World, e: S.Event)
    requires Inv(w) && Enabled(w, Serve(e)) && S.Local(e)
    ensures ConnInv(Apply(w, Serve(e)), S.OnConn(w.server.heap[e.h], e))
  {
    var c := w.server.heap[e.h];
    assert ConnInv(w, c);
    S.OnConnKeeps(c, e);
    OnConnSources(c, e);
    WriteQueue.QueueStep(c, e);
    LocalFaithful(w, e);
    LocalTxSeq(c, e);
    forall src | src in S.OnConn(c, e).sources ensures c.id in ServedBy(Apply(w, Serve(e)), src) {
      LocalServed(w, e, src);
    }
  }

  /** Connection states untouched by a step keep their part of the invariant. */
  lemma {:induction false} FrameConn(w: World, e: S.Event, c: S.Conn)
    requires Inv(w) && Enabled(w, Serve(e)) && ConnInv(w, c)
    ensures ConnInv(Apply(w, Serve(e)), c)
  {
    var w' := Apply(w, Serve(e));
    forall src | src in c.sources ensures c.id in ServedBy(w', src) {
      assert c.id in ServedBy(w, src);
    }
  }

  lemma {:induction false} DroppedConn(w: World, c: S.Conn, src: S.Source)
    requires ConnInv(w, c)
    ensures ConnInv(w, S.OnDrop(c, src))
  {
    assert S.Log(S.OnDrop(c, src)) == S.Log(c);
    if w.tidy {
      RemoveFirstDistinct(c.sources, src);
    }
  }

  lemma {:induction false} CancelledConn(w: World, c: S.Conn)
    requires ConnInv(w, c)
    ensures ConnInv(w, S.Discard(c)) && ConnInv(w, c.(leaving := true))
  {
    assert S.Log(S.Discard(c)) == S.Log(c) && S.Log(c.(leaving := true)) == S.Log(c);
  }

  lemma {:induction false} NewConnInv(w: World, id: u32, src: S.Source, now: int)
    requires id in ServedBy(w, src) && id in w.clients
    ensures ConnInv(w, S.NewConn(id, 0, src, now))
  {
  }

  lemma {:induction false} SynSourceConn(w: World, c: S.Conn, src: S.Source)
    requires ConnInv(w, c) && c.id in ServedBy(w, src) && (w.tidy ==> src !in c.sources)
    ensures ConnInv(w, c.(sources := c.sources + [src]))
  {
    assert S.Log(c.(sources := c.sources + [src])) == S.Log(c);
  }

  lemma {:induction false} SynConns(w: World, e: S.Event, h: nat)
    requires Inv(w) && Enabled(w, Serve(e)) && e.Syn? && h < |Apply(w, Serve(e)).server.heap|
    ensures ConnInv(Apply(w, Serve(e)), Apply(w, Serve(e)).server.heap[h])
  {
    var w' := Apply(w, Serve(e));
    assert e.id in ServedBy(w', e.src);
    if h < |w.server.heap| {
      var c := w.server.heap[h];
      assert ConnInv(w, c);
      FrameConn(w, e, c);
      if e.id in w.server.conns && w.server.conns[e.id] == h {
        assert e.src in c.sources ==> c.id in ServedBy(w, e.src);
        SynSourceConn(w', c, e.src);
      }
    } else {
      NewConnInv(w', e.id, e.src, e.now);
    }
  }

  lemma {:induction false} DeathConns(w: World, e: S.Event, h: nat)
    requires Inv(w) && Enabled(w, Serve(e)) && e.Death? && h < |w.server.heap|
    ensures ConnInv(Apply(w, Serve(e)), Apply(w, Serve(e)).server.heap[h])
  {
    var w', c := Apply(w, Serve(e)), w.server.heap[h];
    assert ConnInv(w, c);
    FrameConn(w, e, c);
    DroppedConn(w', c, e.src);
    CancelledConn(w', S.OnDrop(c, e.src));
  }

  /** Taking states out of the table only marks them. */
  lemma {:induction false} TableMarks(w: World, e: S.Event, h: nat)
    requires Inv(w) && Enabled(w, Serve(e)) && (e.Unlink? || e.Tick? || e.CloseAll?) && h < |w.server.heap|
    ensures var c, s' := w.server.heap[h], S.Apply(w.server, e);
            |s'.heap| == |w.server.heap| && (s'.heap[h] == c || s'.heap[h] == c.(leaving := true) || s'.heap[h] == S.Discard(c))
  {
  }

  lemma {:induction false} TableConns(w: World, e: S.Event, h: nat)
    requires Inv(w) && Enabled(w, Serve(e)) && (e.Unlink? || e.Tick? || e.CloseAll?) && h < |w.server.heap|
    ensures ConnInv(Apply(w, Serve(e)), Apply(w, Serve(e)).server.heap[h])
  {
    assert ConnInv(w, w.server.heap[h]);
    FrameConn(w, e, w.server.heap[h]);
    CancelledConn(Apply(w, Serve(e)), w.server.heap[h]);
    TableMarks(w, e, h);
  }

  lemma {:induction false} LocalConns(w: World, e: S.Event, h: nat)
    requires Inv(w) && Enabled(w, Serve(e)) && S.Local(e) && h < |w.server.heap|
    ensures ConnInv(Apply(w, Serve(e)), Apply(w, Serve(e)).server.heap[h])
  {
    assert ConnInv(w, w.server.heap[h]);
    FrameConn(w, e, w.server.heap[h]);
    LocalConn(w, e);
  }

  lemma {:induction false} SameHeapSize(w: World, e: S.Event)
    requires Inv(w) && Enabled(w, Serve(e)) && !e.Syn?
    ensures |Apply(w, Serve(e)).server.heap| == |w.server.heap|
  {
  }

  /** Every connection state satisfies its invariant after every server step. */
  lemma {:induction false} ServerConns(w: World, e: S.Event, h: nat)
    requires Inv(w) && Enabled(w, Serve(e)) && h < |Apply(w, Serve(e)).server.heap|
    ensures ConnInv(Apply(w, Serve(e)), Apply(w, Serve(e)).server.heap[h])
  {
    if e.Syn? {
      SynConns(w, e, h);
    } else {
      SameHeapSize(w, e);
      if S.Local(e) {
        LocalConns(w, e, h);
      } else if e.Death? {
        DeathConns(w, e, h);
      } else {
        TableConns(w, e, h);
      }
    }
  }

  lemma {:induction false} ServerReverse(w: World, e: S.Event, f: Reverse)
    requires Inv(w) && Enabled(w, Serve(e)) && f in Apply(w, Serve(e)).reverse
    ensures SentReverse(Apply(w, Serve(e)).server, f)
  {
    var s, s' := w.server, Apply(w, Serve(e)).server;
    HeapStep(s, e);
    if f in w.reverse {
      SentReverseKept(s, s', f);
    } else {
      assert ConnInv(w, s.heap[e.h]);
      var k := |s.heap[e.h].upstream|;
      assert s'.heap[f.h].upstream[k] == f.data;
    }
  }

  lemma {:induction false} DeathCleans(w: World, e: S.Event, h: nat)
    requires Inv(w) && Enabled(w, Serve(e)) && e.Death? && w.tidy && S.Current(w.server, h)
    ensures NoDeadSource(Apply(w, Serve(e)), Apply(w, Serve(e)).server.heap[h])
  {
    var c := w.server.heap[h];
    assert ConnInv(w, c) && NoDeadSource(w, c);
    if c.id in e.served {
      DropCleans(w, c, e.src);
    } else {
      assert e.src !in c.sources;
    }
  }

  lemma {:induction false} DropCleans(w: World, c: S.Conn, src: S.Source)
    requires Distinct(c.sources) && NoDeadSource(w, c)
    ensures forall x :: x in S.OnDrop(c, src).sources ==> x != src && x !in w.dead
  {
    RemoveFirstDistinct(c.sources, src);
  }

  /** While every SYN came first on its source, no current connection lists a dead source. */
  lemma {:induction false} ServerDead(w: World, e: S.Event, h: nat)
    requires Inv(w) && Enabled(w, Serve(e)) && Apply(w, Serve(e)).tidy && S.Current(Apply(w, Serve(e)).server, h)
    ensures NoDeadSource(Apply(w, Serve(e)), Apply(w, Serve(e)).server.heap[h])
  {
    if h < |w.server.heap| {
      StaysCurrent(w.server, e, h);
      assert NoDeadSource(w, w.server.heap[h]);
      if e.Death? {
        DeathCleans(w, e, h);
      } else if S.Local(e) {
        OnConnSources(w.server.heap[h], if h == e.h then e else S.CloseAll);
      }
    }
  }

  lemma {:induction false} StaysCurrent(s: S.Server, e: S.Event, h: nat)
    requires S.Lifecycle(s) && S.Enabled(s, e) && h < |s.heap| && S.Current(S.Apply(s, e), h)
    ensures S.Current(s, h)
  {
    S.LifecycleStep(s, e);
    if S.Local(e) {
      S.OnConnKeeps(s.heap[e.h], e);
    }
  }

  lemma {:induction false} ServerStep(w: World, e: S.Event)
    requires Inv(w) && Enabled(w, Serve(e))
    ensures Inv(Apply(w, Serve(e)))
  {
    var w' := Apply(w, Serve(e));
    S.LifecycleStep(w.server, e);
    forall h | 0 <= h < |w'.server.heap| ensures ConnInv(w', w'.server.heap[h]) {
      ServerConns(w, e, h);
    }
    forall f | f in w'.reverse ensures SentReverse(w'.server, f) {
      ServerReverse(w, e, f);
    }
    forall id | id in w'.clients ensures ClientInv(w', id) {
      assert ClientInv(w, id);
    }
    forall h: nat | S.Current(w'.server, h) && w'.tidy ensures NoDeadSource(w', w'.server.heap[h]) {
      ServerDead(w, e, h);
    }
  }

  /** The invariant holds in every reachable world. */
  lemma {:induction false} Reachable(es: seq<Event>)
    requires Exec(es).Some?
    ensures Inv(Exec(es).value)
  {
    if es != [] {
      var w, e := Exec(es[..|es| - 1]).value, es[|es| - 1];
      Reachable(es[..|es| - 1]);
      if e.Serve? {
        ServerStep(w, e.e);
      } else {
        ClientStep(w, e);
      }
    }
  }
}
