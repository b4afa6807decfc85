/**
 What the fields of the server's states mean in terms of the events of a run: when a connection was created and
 last used, whether its upstream is up, which sources it lists and which frames entered its reorderer; and hence
 which connections a clean-up tick removes.
 */
module History {
  import opened Basics
  import opened Lists
  import opened Reorder
  import S = Server
  import Codec
  import opened Tunnel

  // ------------------------------------------------------------------ one step

  /** A frame or an upstream chunk is handled for state `h`. */
  predicate Uses(e: S.Event, h: nat) {
    (e.Data? || e.Upstream?) && e.h == h
  }

  lemma {:induction false} ConnFields(c: S.Conn, e: S.Event)
    requires e.Push? ==> e.i < |c.batches| && c.batches[e.i] != []
    requires e.Pop? ==> c.queue != []
    ensures var c' := S.OnConn(c, e);
            && c'.created == c.created
            && c'.lastActive == (if e.Data? || e.Upstream? then e.now else c.lastActive)
            && c'.connected == (c.connected || e.Ready?)
  {
    match e
    case Data(_, src, num, data, now, clock) => DataFields(c, src, num, data, now, clock);
    case Fin(_, _, clock) => DrainFields(c, clock);
    case Ready(_, clock) => DrainFields(c.(connected := true, queueOpen := true, queue := []), clock);
    case _ => QuietFields(c, e);
  }

  predicate SameFields(c: S.Conn, c': S.Conn) {
    && c'.created == c.created && c'.lastActive == c.lastActive && c'.connected == c.connected
    && c'.sources == c.sources && c'.queueOpen == c.queueOpen
  }

  lemma {:induction false} DrainFields(c: S.Conn, clock: nat -> int)
    ensures SameFields(c, S.OnDrain(c, clock))
  {
  }

  lemma {:induction false} DataFields(c: S.Conn, src: S.Source, num: u32, data: Bytes, now: int, clock: nat -> int)
    ensures SameFields(c.(lastActive := now, sources := if src in c.sources then c.sources else c.sources + [src]),
                       S.OnData(c, src, num, data, now, clock))
  {
    DrainFields(c.(sources := if src in c.sources then c.sources else c.sources + [src],
                   lastActive := now, calls := c.calls + [Ins(num, data)]), clock);
  }

  lemma {:induction false} QuietFields(c: S.Conn, e: S.Event)
    requires !e.Data? && !e.Fin? && !e.Ready?
    requires e.Push? ==> e.i < |c.batches| && c.batches[e.i] != []
    requires e.Pop? ==> c.queue != []
    ensures var c' := S.OnConn(c, e);
            && c'.created == c.created && c'.connected == c.connected
            && c'.lastActive == if e.Upstream? then e.now else c.lastActive
  {
  }

  lemma {:induction false} OldFields(s: S.Server, e: S.Event, h: nat)
    requires S.Lifecycle(s) && S.Enabled(s, e) && h < |s.heap|
    ensures h < |S.Apply(s, e).heap|
    ensures var c, c' := s.heap[h], S.Apply(s, e).heap[h];
            && c'.created == c.created
            && c'.lastActive == (if Uses(e, h) then e.now else c.lastActive)
            && c'.connected == (c.connected || (e.Ready? && e.h == h))
  {
    if S.Local(e) {
      ConnFields(s.heap[e.h], e);
    }
  }

  lemma {:induction false} NewFields(s: S.Server, e: S.Event, h: nat)
    requires S.Lifecycle(s) && S.Enabled(s, e) && |s.heap| <= h < |S.Apply(s, e).heap|
    ensures e.Syn? && h == |s.heap| && e.id !in s.conns && Codec.DecodeSyn(e.payload).Some?
    ensures var c := S.Apply(s, e).heap[h];
            c.id == e.id && c.created == e.now && c.lastActive == e.now && !c.connected && c.sources == [e.src] && c.calls == []
  {
  }

  // ------------------------------------------------------------------ times

  /** The time at which state `h` was created, by the SYN that did it. */
  ghost function CreatedAt(es: seq<Event>, h: nat): int {
    if es == [] then 0
    else
      var b, e := es[..|es| - 1], es[|es| - 1];
      if Creates(b, e, h) then e.e.now else CreatedAt(b, h)
  }

  /** The event creates state `h`. */
  ghost predicate Creates(es: seq<Event>, e: Event, h: nat) {
    Exec(es).Some? && h == |Exec(es).value.server.heap| && e.Serve? && e.e.Syn?
  }

  /** The time of the last frame or upstream chunk handled for state `h`, or of its creation. */
  ghost function LastUse(es: seq<Event>, h: nat): int {
    if es == [] then 0
    else
      var b, e := es[..|es| - 1], es[|es| - 1];
      if Creates(b, e, h) || (e.Serve? && Uses(e.e, h)) then e.e.now else LastUse(b, h)
  }

  /** The upstream of state `h` came up during the run. */
  ghost predicate CameUp(es: seq<Event>, h: nat) {
    exists i :: 0 <= i < |es| && IsReady(es[i], h)
  }

  predicate IsReady(e: Event, h: nat) {
    e.Serve? && e.e.Ready? && e.e.h == h
  }

  lemma {:induction false} CameUpSnoc(es: seq<Event>, e: Event, h: nat)
    ensures CameUp(es + [e], h) <==> CameUp(es, h) || IsReady(e, h)
  {
    var all := es + [e];
    assert all[|es|] == e;
    if CameUp(es, h) {
      var i :| 0 <= i < |es| && IsReady(es[i], h);
      assert IsReady(all[i], h);
    }
    if IsReady(e, h) {
      assert IsReady(all[|es|], h);
    }
  }

  lemma {:induction false} NotUpBefore(es: seq<Event>, h: nat)
    requires Exec(es).Some? && CameUp(es, h)
    ensures h < |Exec(es).value.server.heap|
    decreases |es|
  {
    var n := |es| - 1;
    assert es == es[..n] + [es[n]];
    CameUpSnoc(es[..n], es[n], h);
    HeapOnlyGrows(es[..n], es[n], h);
    if CameUp(es[..n], h) {
      NotUpBefore(es[..n], h);
    }
  }

  lemma {:induction false} HeapOnlyGrows(es: seq<Event>, e: Event, h: nat)
    requires Exec(es + [e]).Some? && Exec(es).Some?
    ensures |Exec(es).value.server.heap| <= |Exec(es + [e]).value.server.heap|
    ensures e.Serve? && (e.e.Ready? || e.e.Data?) && e.e.h == h ==> h < |Exec(es).value.server.heap|
  {
    Reachable(es);
    ExecLast(es, e);
    if e.Serve? {
      S.LifecycleStep(Exec(es).value.server, e.e);
    }
  }

  /** The fields of a state are the times of the run's events, and whether its upstream came up. */
  ghost predicate Dated(es: seq<Event>, h: nat)
    requires Exec(es).Some? && h < |Exec(es).value.server.heap|
  {
    var c := Exec(es).value.server.heap[h];
    c.created == CreatedAt(es, h) && c.lastActive == LastUse(es, h) && (c.connected <==> CameUp(es, h))
  }

  lemma {:induction false} DatedSnoc(es: seq<Event>, e: Event, h: nat)
    requires Exec(es).Some? && Exec(es + [e]).Some? && h < |Exec(es + [e]).value.server.heap|
    requires h < |Exec(es).value.server.heap| ==> Dated(es, h)
    ensures Dated(es + [e], h)
  {
    var s := Exec(es).value.server;
    ExecLast(es, e);
    CameUpSnoc(es, e, h);
    assert (es + [e])[..|es|] == es;
    Reachable(es);
    if e.Serve? {
      if h < |s.heap| {
        OldFields(s, e.e, h);
      } else {
        NewFields(s, e.e, h);
        if CameUp(es, h) {
          NotUpBefore(es, h);
        }
      }
    }
  }

  lemma {:induction false} FieldsAreHistory(es: seq<Event>, h: nat)
    requires Exec(es).Some? && h < |Exec(es).value.server.heap|
    ensures Dated(es, h)
    decreases |es|
  {
    if es != [] {
      var n := |es| - 1;
      assert es == es[..n] + [es[n]];
      if h < |Exec(es[..n]).value.server.heap| {
        FieldsAreHistory(es[..n], h);
      }
      DatedSnoc(es[..n], es[n], h);
    }
  }

  // ------------------------------------------------------------------ the clean-up tick

  /**
   Which connections a tick at `now` removes, by the run's own events: those whose upstream did not come up within
   60 s of their creation, those without a source more than 30 s after it, and those not used for 60 s.
   */
  ghost predicate HasToGo(es: seq<Event>, h: nat, now: int)
    requires Exec(es).Some? && h < |Exec(es).value.server.heap|
  {
    || (!CameUp(es, h) && now - CreatedAt(es, h) > 60_000_000_000)
    || (Exec(es).value.server.heap[h].sources == [] && now - CreatedAt(es, h) > 30_000_000_000)
    || now - LastUse(es, h) > 60_000_000_000
  }

  /**
   In every run, a tick removes a connection from the table, and cancels it, if and only if it has to go; the
   others stay exactly as they are.
   */
  lemma {:induction false} TickRemovesIff(es: seq<Event>, now: int, id: u32)
    requires Exec(es).Some? && id in Exec(es).value.server.conns
    ensures Exec(es + [Serve(S.Tick(now))]).Some?
    ensures var s, s' := Exec(es).value.server, Exec(es + [Serve(S.Tick(now))]).value.server;
            var h := s.conns[id];
            && h < |s.heap| && h < |s'.heap|
            && (id in s'.conns <==> !HasToGo(es, h, now))
            && (id in s'.conns ==> s'.conns[id] == h && s'.heap[h] == s.heap[h])
            && (id !in s'.conns ==> s'.heap[h].cancelled)
  {
    Reachable(es);
    TickIs(Exec(es).value.server, now, id);
    FieldsAreHistory(es, Exec(es).value.server.conns[id]);
    TickRuns(es, now);
  }

  lemma {:induction false} TickRuns(es: seq<Event>, now: int)
    requires Exec(es).Some?
    ensures Exec(es + [Serve(S.Tick(now))]).Some?
    ensures var s := Exec(es).value.server;
            S.Alive(s) && Exec(es + [Serve(S.Tick(now))]).value.server == S.Sweep(s, S.StaleAt(now), s.conns.Keys)
  {
    Reachable(es);
    ExecLast(es, Serve(S.Tick(now)));
  }

  lemma {:induction false} TickIs(s: S.Server, now: int, id: u32)
    requires S.Lifecycle(s) && id in s.conns
    ensures var s' := S.Sweep(s, S.StaleAt(now), s.conns.Keys);
            var h, c := s.conns[id], s.heap[s.conns[id]];
            && |s'.heap| == |s.heap|
            && (id in s'.conns <==> !((!c.connected && now - c.created > 60_000_000_000)
                                      || (c.sources == [] && now - c.created > 30_000_000_000)
                                      || now - c.lastActive > 60_000_000_000))
            && (id in s'.conns ==> s'.conns[id] == h && s'.heap[h] == s.heap[h])
            && (id !in s'.conns ==> s'.heap[h].cancelled)
  {
  }

  /** Closing everything empties the table and cancels every state that was in it. */
  lemma {:induction false} CloseAllEmpties(es: seq<Event>)
    requires Exec(es).Some?
    ensures Exec(es + [Serve(S.CloseAll)]).Some?
    ensures var s, s' := Exec(es).value.server, Exec(es + [Serve(S.CloseAll)]).value.server;
            && s'.conns == map[] && |s'.heap| == |s.heap|
            && forall id :: id in s.conns ==> s.conns[id] < |s.heap| && s'.heap[s.conns[id]].cancelled
  {
    Reachable(es);
    ExecLast(es, Serve(S.CloseAll));
  }

  // ------------------------------------------------------------------ sources

  /** How often state `h` lists source `x` after a step, for every kind of step. */
  function Listed(s: S.Server, e: S.Event, h: nat, x: S.Source): int
    requires h < |s.heap|
  {
    var n := Count(s.heap[h].sources, x);
    match e
    case Data(h', src, _, _, _, _) => if h' == h && src == x && n == 0 then 1 else n
    case Drop(h', src) => if h' == h && src == x && n > 0 then n - 1 else n
    case Syn(id, _, _, src, _) => if id in s.conns && s.conns[id] == h && src == x then n + 1 else n
    case Death(src, served) => if S.Current(s, h) && s.heap[h].id in served && src == x && n > 0 then n - 1 else n
    case _ => n
  }

  lemma {:induction false} LocalListed(c: S.Conn, e: S.Event, x: S.Source)
    requires e.Push? ==> e.i < |c.batches| && c.batches[e.i] != []
    requires e.Pop? ==> c.queue != []
    ensures var n := Count(c.sources, x);
            Count(S.OnConn(c, e).sources, x)
            == if e.Data? && e.src == x && n == 0 then 1 else if e.Drop? && e.src == x && n > 0 then n - 1 else n
  {
    CountZero(c.sources, x);
    match e
    case Data(_, src, num, data, now, clock) =>
      DataFields(c, src, num, data, now, clock);
      CountSnoc(c.sources, src, x);
    case Fin(_, _, clock) => DrainFields(c, clock);
    case Ready(_, clock) => DrainFields(c.(connected := true, queueOpen := true, queue := []), clock);
    case Drop(_, src) => RemoveFirstCounts(c.sources, src, x);
    case _ => QuietSources(c, e);
  }

  lemma {:induction false} QuietSources(c: S.Conn, e: S.Event)
    requires !e.Data? && !e.Fin? && !e.Ready? && !e.Drop?
    requires e.Push? ==> e.i < |c.batches| && c.batches[e.i] != []
    requires e.Pop? ==> c.queue != []
    ensures S.OnConn(c, e).sources == c.sources
  {
  }

  /** Every step changes the multiplicity of every source in every connection's list exactly as `Listed` says. */
  lemma {:induction false} ListedStep(s: S.Server, e: S.Event, h: nat, x: S.Source)
    requires S.Lifecycle(s) && S.Enabled(s, e) && h < |s.heap|
    ensures h < |S.Apply(s, e).heap| && Count(S.Apply(s, e).heap[h].sources, x) == Listed(s, e, h, x)
  {
    if S.Local(e) {
      LocalListedAt(s, e, h, x);
    } else if e.Syn? {
      CountSnoc(s.heap[h].sources, e.src, x);
    } else if e.Death? {
      CountZero(s.heap[h].sources, x);
      RemoveFirstCounts(s.heap[h].sources, e.src, x);
    }
  }

  lemma {:induction false} LocalListedAt(s: S.Server, e: S.Event, h: nat, x: S.Source)
    requires S.Lifecycle(s) && S.Enabled(s, e) && S.Local(e) && h < |s.heap|
    ensures h < |S.Apply(s, e).heap| && Count(S.Apply(s, e).heap[h].sources, x) == Listed(s, e, h, x)
  {
    LocalListed(s.heap[e.h], e, x);
  }

  /** A source that carried a SYN or a data frame for a connection is listed by it from then on, as later steps tell. */
  lemma {:induction false} CarrierIsListed(es: seq<Event>, e: S.Event)
    requires Exec(es).Some? && Exec(es + [Serve(e)]).Some? && (e.Data? || e.Syn?)
    ensures var s := Exec(es + [Serve(e)]).value.server;
            if e.Data? then e.h < |s.heap| && e.src in s.heap[e.h].sources
            else e.id in s.conns ==> s.conns[e.id] < |s.heap| && e.src in s.heap[s.conns[e.id]].sources
  {
    var s, s' := Exec(es).value.server, Exec(es + [Serve(e)]).value.server;
    Reachable(es);
    ExecLast(es, Serve(e));
    if e.Data? {
      ListedStep(s, e, e.h, e.src);
      CountZero(s'.heap[e.h].sources, e.src);
    } else if e.id in s.conns {
      ListedStep(s, e, s.conns[e.id], e.src);
      CountZero(s'.heap[s.conns[e.id]].sources, e.src);
    }
  }

  // ------------------------------------------------------------------ frames

  /** The event delivers this frame to state `h`. */
  predicate Delivers(e: Event, h: nat, num: u32, data: Bytes) {
    e.Serve? && e.e.Data? && e.e.h == h && e.e.num == num && e.e.data == data
  }

  lemma {:induction false} LocalCalls(c: S.Conn, e: S.Event, num: u32, data: Bytes)
    requires e.Push? ==> e.i < |c.batches| && c.batches[e.i] != []
    requires e.Pop? ==> c.queue != []
    ensures Ins(num, data) in S.OnConn(c, e).calls
            <==> Ins(num, data) in c.calls || (e.Data? && e.num == num && e.data == data)
  {
    OnConnCalls(c, e, Ins(num, data));
    if e.Data? {
      DataCalls(c, e.src, e.num, e.data, e.now, e.clock);
    }
  }

  lemma {:induction false} DataCalls(c: S.Conn, src: S.Source, num: u32, data: Bytes, now: int, clock: nat -> int)
    ensures c.calls + [Ins(num, data)] <= S.OnData(c, src, num, data, now, clock).calls
    ensures Ins(num, data) in S.OnData(c, src, num, data, now, clock).calls
    ensures forall x :: x in c.calls ==> x in S.OnData(c, src, num, data, now, clock).calls
  {
    var all := c.calls + [Ins(num, data)];
    assert Ins(num, data) in all && forall x :: x in c.calls ==> x in all;
  }

  lemma {:induction false} CallsStep(s: S.Server, e: S.Event, h: nat, num: u32, data: Bytes)
    requires S.Lifecycle(s) && S.Enabled(s, e) && h < |S.Apply(s, e).heap|
    ensures Ins(num, data) in S.Apply(s, e).heap[h].calls
            <==> (h < |s.heap| && Ins(num, data) in s.heap[h].calls) || Delivers(Serve(e), h, num, data)
  {
    if h >= |s.heap| {
      NewFields(s, e, h);
    } else if S.Local(e) {
      LocalCalls(s.heap[e.h], e, num, data);
    }
  }

  /** Some event of the run delivered the frame to state `h`. */
  ghost predicate WasDelivered(es: seq<Event>, h: nat, num: u32, data: Bytes) {
    exists i :: 0 <= i < |es| && Delivers(es[i], h, num, data)
  }

  lemma {:induction false} DeliveredSnoc(es: seq<Event>, e: Event, h: nat, num: u32, data: Bytes)
    ensures WasDelivered(es + [e], h, num, data) <==> WasDelivered(es, h, num, data) || Delivers(e, h, num, data)
  {
    var all := es + [e];
    if i :| 0 <= i < |es| && Delivers(es[i], h, num, data) {
      assert Delivers(all[i], h, num, data);
    }
    if Delivers(e, h, num, data) {
      assert Delivers(all[|es|], h, num, data);
    }
  }

  lemma {:induction false} DeliveredExists(es: seq<Event>, h: nat, num: u32, data: Bytes)
    requires Exec(es).Some? && WasDelivered(es, h, num, data)
    ensures h < |Exec(es).value.server.heap|
    decreases |es|
  {
    var n := |es| - 1;
    assert es == es[..n] + [es[n]];
    DeliveredSnoc(es[..n], es[n], h, num, data);
    HeapOnlyGrows(es[..n], es[n], h);
    if WasDelivered(es[..n], h, num, data) {
      DeliveredExists(es[..n], h, num, data);
    }
  }

  lemma {:induction false} InsertedSnoc(es: seq<Event>, e: Event, h: nat, num: u32, data: Bytes)
    requires Exec(es).Some? && Exec(es + [e]).Some? && h < |Exec(es + [e]).value.server.heap|
    requires h < |Exec(es).value.server.heap| ==>
               (Ins(num, data) in Exec(es).value.server.heap[h].calls <==> WasDelivered(es, h, num, data))
    ensures Ins(num, data) in Exec(es + [e]).value.server.heap[h].calls <==> WasDelivered(es + [e], h, num, data)
  {
    ExecLast(es, e);
    DeliveredSnoc(es, e, h, num, data);
    Reachable(es);
    if e.Serve? {
      CallsStep(Exec(es).value.server, e.e, h, num, data);
    }
    if h >= |Exec(es).value.server.heap| && WasDelivered(es, h, num, data) {
      DeliveredExists(es, h, num, data);
    }
  }

  /** In every run, the frames that entered a state's reorderer are exactly those that were delivered to it. */
  lemma {:induction false} InsertedIffDelivered(es: seq<Event>, h: nat, num: u32, data: Bytes)
    requires Exec(es).Some? && h < |Exec(es).value.server.heap|
    ensures Ins(num, data) in Exec(es).value.server.heap[h].calls <==> WasDelivered(es, h, num, data)
    decreases |es|
  {
    if es != [] {
      var n := |es| - 1;
      assert es == es[..n] + [es[n]];
      if h < |Exec(es[..n]).value.server.heap| {
        InsertedIffDelivered(es[..n], h, num, data);
      }
      InsertedSnoc(es[..n], es[n], h, num, data);
    }
  }

  predicate Receives(e: Event, id: u32, num: u32, data: Bytes) {
    e.Receive? && e.f.id == id && e.f.num == num && e.f.data == data
  }

  /** Some event of the run let the client receive the frame. */
  ghost predicate WasReceived(es: seq<Event>, id: u32, num: u32, data: Bytes) {
    exists i :: 0 <= i < |es| && Receives(es[i], id, num, data)
  }

  lemma {:induction false} ReceivedSnoc(es: seq<Event>, e: Event, id: u32, num: u32, data: Bytes)
    ensures WasReceived(es + [e], id, num, data) <==> WasReceived(es, id, num, data) || Receives(e, id, num, data)
  {
    var all := es + [e];
    if i :| 0 <= i < |es| && Receives(es[i], id, num, data) {
      assert Receives(all[i], id, num, data);
    }
    if Receives(e, id, num, data) {
      assert Receives(all[|es|], id, num, data);
    }
  }

  lemma {:induction false} ReceiverExists(es: seq<Event>, id: u32, num: u32, data: Bytes)
    requires Exec(es).Some? && WasReceived(es, id, num, data)
    ensures id in Exec(es).value.clients
    decreases |es|
  {
    var n := |es| - 1;
    assert es == es[..n] + [es[n]];
    ReceivedSnoc(es[..n], es[n], id, num, data);
    if WasReceived(es[..n], id, num, data) {
      ReceiverExists(es[..n], id, num, data);
    }
  }

  lemma {:induction false} HeardSnoc(es: seq<Event>, e: Event, id: u32, num: u32, data: Bytes)
    requires Exec(es).Some? && Exec(es + [e]).Some? && id in Exec(es + [e]).value.clients
    requires id in Exec(es).value.clients ==>
               (Ins(num, data) in Exec(es).value.clients[id].calls <==> WasReceived(es, id, num, data))
    ensures Ins(num, data) in Exec(es + [e]).value.clients[id].calls <==> WasReceived(es + [e], id, num, data)
  {
    ExecLast(es, e);
    ReceivedSnoc(es, e, id, num, data);
    if id !in Exec(es).value.clients && WasReceived(es, id, num, data) {
      ReceiverExists(es, id, num, data);
    }
  }

  /** And the frames a client inserted are exactly those it received. */
  lemma {:induction false} InsertedIffReceived(es: seq<Event>, id: u32, num: u32, data: Bytes)
    requires Exec(es).Some? && id in Exec(es).value.clients
    ensures Ins(num, data) in Exec(es).value.clients[id].calls <==> WasReceived(es, id, num, data)
    decreases |es|
  {
    if es != [] {
      var n := |es| - 1;
      assert es == es[..n] + [es[n]];
      if id in Exec(es[..n]).value.clients {
        InsertedIffReceived(es[..n], id, num, data);
      }
      HeardSnoc(es[..n], es[n], id, num, data);
    }
  }

  // ------------------------------------------------------------------ streams

  /** The chunks a client sent, by the events of the run. */
  ghost function SentBy(es: seq<Event>, id: u32): seq<Bytes> {
    if es == [] then []
    else
      var b, e := es[..|es| - 1], es[|es| - 1];
      SentBy(b, id) + if e.Send? && e.id == id then [e.chunk] else []
  }

  lemma {:induction false} NothingSentYet(es: seq<Event>, id: u32)
    requires Exec(es).Some? && id !in Exec(es).value.clients
    ensures SentBy(es, id) == []
    decreases |es|
  {
    if es != [] {
      NothingSentYet(es[..|es| - 1], id);
    }
  }

  lemma {:induction false} ChunksSnoc(es: seq<Event>, e: Event, id: u32)
    requires Exec(es).Some? && Exec(es + [e]).Some? && id in Exec(es + [e]).value.clients
    requires id in Exec(es).value.clients ==> Exec(es).value.clients[id].chunks == SentBy(es, id)
    ensures Exec(es + [e]).value.clients[id].chunks == SentBy(es + [e], id)
  {
    assert (es + [e])[..|es|] == es;
    ExecLast(es, e);
    if id !in Exec(es).value.clients {
      NothingSentYet(es, id);
    }
  }

  /** In every run, a client's chunks are those of its `Send` events. */
  lemma {:induction false} ChunksAreSent(es: seq<Event>, id: u32)
    requires Exec(es).Some? && id in Exec(es).value.clients
    ensures Exec(es).value.clients[id].chunks == SentBy(es, id)
    decreases |es|
  {
    if es != [] {
      var n := |es| - 1;
      assert es == es[..n] + [es[n]];
      if id in Exec(es[..n]).value.clients {
        ChunksAreSent(es[..n], id);
      }
      ChunksSnoc(es[..n], es[n], id);
    }
  }

  /** The chunks that state `h` read from its upstream, by the events of the run. */
  ghost function ReadFrom(es: seq<Event>, h: nat): seq<Bytes> {
    if es == [] then []
    else
      var b, e := es[..|es| - 1], es[|es| - 1];
      ReadFrom(b, h) + if Reads(e, h) then [e.e.data] else []
  }

  predicate Reads(e: Event, h: nat) {
    e.Serve? && e.e.Upstream? && e.e.h == h
  }

  lemma {:induction false} UpstreamStep(s: S.Server, e: S.Event, h: nat)
    requires S.Lifecycle(s) && S.Enabled(s, e) && h < |S.Apply(s, e).heap|
    ensures S.Apply(s, e).heap[h].upstream
            == (if h < |s.heap| then s.heap[h].upstream else []) + if Reads(Serve(e), h) then [e.data] else []
  {
    if h < |s.heap| && S.Local(e) {
      UpstreamGrows(s.heap[e.h], e);
      LocalHeapAt(s, e, h);
    }
  }

  lemma {:induction false} NothingReadYet(es: seq<Event>, h: nat)
    requires Exec(es).Some? && h >= |Exec(es).value.server.heap|
    ensures ReadFrom(es, h) == []
    decreases |es|
  {
    if es != [] {
      var n := |es| - 1;
      assert es == es[..n] + [es[n]];
      HeapOnlyGrows(es[..n], es[n], h);
      NothingReadYet(es[..n], h);
      ReaderExists(es[..n], es[n], h);
    }
  }

  lemma {:induction false} ReaderExists(es: seq<Event>, e: Event, h: nat)
    requires Exec(es + [e]).Some? && Exec(es).Some?
    ensures Reads(e, h) ==> h < |Exec(es).value.server.heap|
  {
    ExecLast(es, e);
  }

  lemma {:induction false} ReadSnoc(es: seq<Event>, e: Event, h: nat)
    requires Exec(es).Some? && Exec(es + [e]).Some? && h < |Exec(es + [e]).value.server.heap|
    requires h < |Exec(es).value.server.heap| ==> Exec(es).value.server.heap[h].upstream == ReadFrom(es, h)
    ensures Exec(es + [e]).value.server.heap[h].upstream == ReadFrom(es + [e], h)
  {
    assert (es + [e])[..|es|] == es;
    ExecLast(es, e);
    Reachable(es);
    if e.Serve? {
      UpstreamStep(Exec(es).value.server, e.e, h);
    }
    if h >= |Exec(es).value.server.heap| {
      NothingReadYet(es, h);
    }
  }

  /** In every run, what a state counts as read is what its `Upstream` events read. */
  lemma {:induction false} UpstreamIsRead(es: seq<Event>, h: nat)
    requires Exec(es).Some? && h < |Exec(es).value.server.heap|
    ensures Exec(es).value.server.heap[h].upstream == ReadFrom(es, h)
    decreases |es|
  {
    if es != [] {
      var n := |es| - 1;
      assert es == es[..n] + [es[n]];
      if h < |Exec(es[..n]).value.server.heap| {
        UpstreamIsRead(es[..n], h);
      }
      ReadSnoc(es[..n], es[n], h);
    }
  }

  /** Every chunk that was read left as a reverse frame with its number. */
  ghost predicate AllSent(w: World, h: nat)
    requires h < |w.server.heap|
  {
    var c := w.server.heap[h];
    forall k :: 0 <= k < |c.upstream| ==> Reverse(c.id, h, Wrap(k), c.upstream[k]) in w.reverse
  }

  lemma {:induction false} SentStep(w: World, e: S.Event, h: nat)
    requires Enabled(w, Serve(e)) && S.Lifecycle(w.server) && h < |S.Apply(w.server, e).heap|
    requires h < |w.server.heap| ==> AllSent(w, h) && w.server.heap[h].txSeq == Wrap(|w.server.heap[h].upstream|)
    ensures AllSent(Tunnel.Apply(w, Serve(e)), h)
  {
    var w' := Tunnel.Apply(w, Serve(e));
    var c' := w'.server.heap[h];
    UpstreamStep(w.server, e, h);
    if h < |w.server.heap| {
      var c := w.server.heap[h];
      HeapStepAt(w.server, e, h);
      assert w'.server.heap[h].id == c.id;
      forall k | 0 <= k < |c'.upstream| ensures Reverse(c'.id, h, Wrap(k), c'.upstream[k]) in w'.reverse {
        assert k < |c.upstream| ==> Reverse(c.id, h, Wrap(k), c.upstream[k]) in w.reverse;
      }
    }
  }

  lemma {:induction false} SentSnoc(es: seq<Event>, e: Event, h: nat)
    requires Exec(es).Some? && Exec(es + [e]).Some? && h < |Exec(es + [e]).value.server.heap|
    requires h < |Exec(es).value.server.heap| ==> AllSent(Exec(es).value, h)
    ensures AllSent(Exec(es + [e]).value, h)
  {
    var w := Exec(es).value;
    ExecLast(es, e);
    Reachable(es);
    if e.Serve? {
      assert h < |w.server.heap| ==> ConnInv(w, w.server.heap[h]);
      SentStep(w, e.e, h);
    }
  }

  /** In every run, the k-th chunk a state read (from 0) left as a reverse frame numbered k, modulo 2^32. */
  lemma {:induction false} EveryChunkIsSent(es: seq<Event>, h: nat)
    requires Exec(es).Some? && h < |Exec(es).value.server.heap|
    ensures AllSent(Exec(es).value, h)
    decreases |es|
  {
    if es != [] {
      var n := |es| - 1;
      assert es == es[..n] + [es[n]];
      if h < |Exec(es[..n]).value.server.heap| {
        EveryChunkIsSent(es[..n], h);
      }
      SentSnoc(es[..n], es[n], h);
    }
  }

  // ------------------------------------------------------------------ what the writer takes

  /** What the writer of state `h` has taken from the queue, oldest first. */
  ghost function Written(es: seq<Event>, h: nat): seq<Entry> {
    if es == [] then []
    else
      var b, e := es[..|es| - 1], es[|es| - 1];
      Written(b, h) + if Pops(b, e, h) then [Exec(b).value.server.heap[h].queue[0]] else []
  }

  ghost predicate Pops(es: seq<Event>, e: Event, h: nat) {
    && e.Serve? && e.e.Pop? && e.e.h == h
    && Exec(es).Some? && h < |Exec(es).value.server.heap| && Exec(es).value.server.heap[h].queue != []
  }

  /** Taken and waiting chunks are those accepted; before the upstream is up there are none and nobody pushes. */
  ghost predicate Fifo(c: S.Conn, written: seq<Entry>) {
    && written + c.queue == c.pushed
    && (!c.connected ==> !c.queueOpen && c.batches == [] && c.queue == [] && c.pushed == [])
  }

  lemma {:induction false} FifoDrain(c: S.Conn, clock: nat -> int, written: seq<Entry>)
    requires c.connected && Fifo(c, written)
    ensures Fifo(S.OnDrain(c, clock), written)
  {
    DrainFields(c, clock);
  }

  lemma {:induction false} FifoStep(c: S.Conn, e: S.Event, written: seq<Entry>)
    requires Fifo(c, written)
    requires e.Push? ==> e.i < |c.batches| && c.batches[e.i] != []
    requires e.Pop? ==> c.queue != []
    requires e.Ready? ==> !c.connected
    ensures Fifo(S.OnConn(c, e), if e.Pop? then written + [c.queue[0]] else written)
  {
    match e
    case Data(_, src, num, data, now, clock) =>
      if c.queueOpen {
        FifoDrain(c.(sources := if src in c.sources then c.sources else c.sources + [src],
                     lastActive := now, calls := c.calls + [Ins(num, data)]), clock, written);
      }
    case Fin(_, _, clock) =>
      if c.queueOpen {
        FifoDrain(c, clock, written);
      }
    case Ready(_, clock) => FifoDrain(c.(connected := true, queueOpen := true, queue := []), clock, written);
    case Push(_, i) => FifoPush(c, i, written);
    case Pop(_) => assert written + c.queue == (written + [c.queue[0]]) + c.queue[1..];
    case _ => FifoQuiet(c, e, written);
  }

  lemma {:induction false} FifoPush(c: S.Conn, i: nat, written: seq<Entry>)
    requires Fifo(c, written) && i < |c.batches| && c.batches[i] != []
    ensures Fifo(S.OnPush(c, i), written)
  {
    var e := c.batches[i][0];
    assert written + (c.queue + [e]) == written + c.queue + [e];
  }

  lemma {:induction false} FifoQuiet(c: S.Conn, e: S.Event, written: seq<Entry>)
    requires Fifo(c, written) && (e.Upstream? || e.Pick? || e.Drop? || e.Cancel? || !S.Local(e))
    ensures Fifo(S.OnConn(c, e), written)
  {
  }

  lemma {:induction false} FifoTable(s: S.Server, e: S.Event, h: nat, written: seq<Entry>)
    requires S.Lifecycle(s) && S.Enabled(s, e) && !S.Local(e) && h < |s.heap| && Fifo(s.heap[h], written)
    ensures h < |S.Apply(s, e).heap| && Fifo(S.Apply(s, e).heap[h], written)
  {
  }

  lemma {:induction false} NothingWrittenYet(es: seq<Event>, h: nat)
    requires Exec(es).Some? && h >= |Exec(es).value.server.heap|
    ensures Written(es, h) == []
    decreases |es|
  {
    if es != [] {
      var n := |es| - 1;
      assert es == es[..n] + [es[n]];
      HeapOnlyGrows(es[..n], es[n], h);
      NothingWrittenYet(es[..n], h);
    }
  }

  lemma {:induction false} FifoLocal(s: S.Server, e: S.Event, h: nat, written: seq<Entry>)
    requires S.Lifecycle(s) && S.Enabled(s, e) && S.Local(e) && h < |s.heap| && Fifo(s.heap[h], written)
    ensures h < |S.Apply(s, e).heap|
    ensures Fifo(S.Apply(s, e).heap[h], if e.Pop? && e.h == h then written + [s.heap[h].queue[0]] else written)
  {
    LocalHeapAt(s, e, h);
    if e.h == h {
      FifoStep(s.heap[h], e, written);
    }
  }

  /** What the writer has taken after one more step of the server. */
  ghost function Taken(s: S.Server, e: S.Event, h: nat, written: seq<Entry>): seq<Entry> {
    if e.Pop? && e.h == h && h < |s.heap| && s.heap[h].queue != [] then written + [s.heap[h].queue[0]] else written
  }

  lemma {:induction false} WrittenIs(es: seq<Event>, e: Event, h: nat)
    requires Exec(es).Some?
    ensures Written(es + [e], h)
            == if e.Serve? then Taken(Exec(es).value.server, e.e, h, Written(es, h)) else Written(es, h)
  {
    assert (es + [e])[..|es|] == es;
  }

  lemma {:induction false} HasLifecycle(es: seq<Event>)
    requires Exec(es).Some?
    ensures S.Lifecycle(Exec(es).value.server)
  {
    Reachable(es);
  }

  lemma {:induction false} FifoServe(s: S.Server, e: S.Event, h: nat, written: seq<Entry>)
    requires S.Lifecycle(s) && S.Enabled(s, e) && h < |S.Apply(s, e).heap|
    requires if h < |s.heap| then Fifo(s.heap[h], written) else written == []
    ensures Fifo(S.Apply(s, e).heap[h], Taken(s, e, h, written))
  {
    if h >= |s.heap| {
      NewFields(s, e, h);
    } else if S.Local(e) {
      FifoLocal(s, e, h, written);
    } else {
      FifoTable(s, e, h, written);
    }
  }

  lemma {:induction false} WrittenSnoc(es: seq<Event>, e: Event, h: nat)
    requires Exec(es).Some? && Exec(es + [e]).Some? && h < |Exec(es + [e]).value.server.heap|
    requires h < |Exec(es).value.server.heap| ==> Fifo(Exec(es).value.server.heap[h], Written(es, h))
    ensures Fifo(Exec(es + [e]).value.server.heap[h], Written(es + [e], h))
  {
    ExecLast(es, e);
    WrittenIs(es, e, h);
    HasLifecycle(es);
    if h >= |Exec(es).value.server.heap| {
      NothingWrittenYet(es, h);
    }
    if e.Serve? {
      FifoServe(Exec(es).value.server, e.e, h, Written(es, h));
    }
  }

  /** In every run, what the writer took and what still waits is exactly what the queue accepted, first in first out. */
  lemma {:induction false} WriterTakesInOrder(es: seq<Event>, h: nat)
    requires Exec(es).Some? && h < |Exec(es).value.server.heap|
    ensures var c := Exec(es).value.server.heap[h];
            Written(es, h) + c.queue == c.pushed && Fifo(c, Written(es, h))
    decreases |es|
  {
    if es != [] {
      var n := |es| - 1;
      assert es == es[..n] + [es[n]];
      if h < |Exec(es[..n]).value.server.heap| {
        WriterTakesInOrder(es[..n], h);
      }
      WrittenSnoc(es[..n], es[n], h);
    }
  }
}
