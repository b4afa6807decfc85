/**
 The central server as a state machine.  A connection state stays alive in `heap` after it has left the
 connection table, because the goroutines that serve it keep their pointer; the position in `heap` plays
 the role of that pointer.  Every step below is one critical section of the server, one channel operation, or
 one call that cancels a state outside the lock.
 */
module Server {
  import opened Basics
  import opened Lists
  import opened Reorder
  import opened ReorderGaps
  import Codec

  type Source = nat

  const SECOND: int := 1_000_000_000
  const QUEUE_CAPACITY: nat := 256

  datatype Conn = Conn(
    id: u32,
    start: u32,                 // first data number expected
    calls: seq<Call>,           // the calls made on the reorderer, which determine its state
    sources: seq<Source>,
    sourceIdx: nat,
    txSeq: u32,
    upstream: seq<Bytes>,       // chunks read from upstream so far
    connected: bool,            // target is set
    queueOpen: bool,            // writeCh is set
    leaving: bool,              // it has left the connection table
    cancelled: bool,
    created: int,
    lastActive: int,
    batches: seq<seq<Entry>>,   // drained by a handler that has not pushed everything yet
    queue: seq<Entry>,          // contents of the write channel
    pushed: seq<Entry>,         // everything the write channel ever accepted
    overlapped: bool)           // a handler drained while another one was still pushing

  datatype Server = Server(conns: map<u32, nat>, heap: seq<Conn>)

  // ------------------------------------------------------------------ one connection

  ghost function Buffer(c: Conn): State {
    Run(c.start, c.calls).state
  }

  /** Everything the connection's reorderer has handed out, oldest first. */
  ghost function Log(c: Conn): seq<Entry> {
    Run(c.start, c.calls).log
  }

  /** What a drain loop passes on: the consumed frames except an empty one, which looks like nil. */
  function NonEmpty(log: seq<Entry>): (r: seq<Entry>)
    ensures forall e :: e in r <==> e in log && e.data != []
  {
    if log == [] then []
    else NonEmpty(log[..|log| - 1]) + if log[|log| - 1].data == [] then [] else [log[|log| - 1]]
  }

  /** Drain the reorderer under the lock; the chunks become a batch its handler still has to push. */
  ghost function OnDrain(c: Conn, clock: nat -> int): Conn {
    var d := Drain(Buffer(c), clock, 0);
    var batch := NonEmpty(d.log);
    c.(calls := c.calls + NextCalls(clock, 0, d.calls),
       batches := if batch == [] then c.batches else c.batches + [batch],
       overlapped := c.overlapped || (batch != [] && c.batches != []))
  }

  ghost function OnData(c: Conn, src: Source, num: u32, data: Bytes, now: int, clock: nat -> int): Conn {
    var c1 := c.(sources := if src in c.sources then c.sources else c.sources + [src],
                 lastActive := now,
                 calls := c.calls + [Ins(num, data)]);
    if c.queueOpen then OnDrain(c1, clock) else c1
  }

  ghost function OnReady(c: Conn, clock: nat -> int): Conn {
    OnDrain(c.(connected := true, queueOpen := true, queue := []), clock)
  }

  ghost function OnFin(c: Conn, clock: nat -> int): Conn {
    (if c.queueOpen then OnDrain(c, clock) else c).(queueOpen := false)
  }

  function OnUpstream(c: Conn, data: Bytes, now: int): Conn {
    c.(txSeq := Inc(c.txSeq), upstream := c.upstream + [data], lastActive := now)
  }

  function OnPick(c: Conn): Conn {
    if c.sources == [] then c else c.(sourceIdx := c.sourceIdx + 1)
  }

  function OnDrop(c: Conn, src: Source): Conn {
    c.(sources := RemoveFirst(c.sources, src))
  }

  /** The handler of batch `i` offers its next chunk to the write channel, which drops it when full. */
  function OnPush(c: Conn, i: nat): Conn
    requires i < |c.batches| && c.batches[i] != []
  {
    var e, rest := c.batches[i][0], c.batches[i][1..];
    var c1 := c.(batches := if rest == [] then c.batches[..i] + c.batches[i + 1..] else c.batches[i := rest]);
    if |c.queue| < QUEUE_CAPACITY then c1.(queue := c.queue + [e], pushed := c.pushed + [e]) else c1
  }

  function OnPop(c: Conn): Conn
    requires c.queue != []
  {
    c.(queue := c.queue[1..])
  }

  predicate Stale(c: Conn, now: int) {
    || (!c.connected && now - c.created > 60 * SECOND)
    || (c.sources == [] && now - c.created > 30 * SECOND)
    || now - c.lastActive > 60 * SECOND
  }

  // ------------------------------------------------------------------ the connection table

  predicate Current(s: Server, h: nat) {
    h < |s.heap| && s.heap[h].id in s.conns && s.conns[s.heap[h].id] == h
  }

  function NewConn(id: u32, num: u32, src: Source, now: int): Conn {
    Conn(id, Inc(num), [], [src], 0, 0, [], false, false, false, false, now, now, [], [], [], false)
  }

  /** A SYN for a known connection registers one more source; for a new one it creates the state. */
  function SynStep(s: Server, id: u32, num: u32, payload: Bytes, src: Source, now: int): Server
    requires id in s.conns ==> s.conns[id] < |s.heap|
  {
    if id in s.conns then
      var h := s.conns[id];
      s.(heap := s.heap[h := s.heap[h].(sources := s.heap[h].sources + [src])])
    else if Codec.DecodeSyn(payload).None? then s
    else Server(s.conns[id := |s.heap|], s.heap + [NewConn(id, num, src, now)])
  }

  /** Out of the table and cancelled. */
  function Discard(c: Conn): Conn {
    c.(leaving := true, cancelled := true)
  }

  /** `removeConn` takes the entry out of the table under the lock and cancels the state after releasing it. */
  function UnlinkStep(s: Server, id: u32): Server
    requires id in s.conns ==> s.conns[id] < |s.heap|
  {
    if id !in s.conns then s
    else
      var h := s.conns[id];
      Server(s.conns - {id}, s.heap[h := s.heap[h].(leaving := true)])
  }

  function OnCancel(c: Conn): Conn {
    c.(cancelled := true)
  }

  /** Both halves without anything in between. */
  function RemoveStep(s: Server, id: u32): Server
    requires id in s.conns ==> s.conns[id] < |s.heap|
  {
    if id !in s.conns then s
    else
      var h := s.conns[id];
      Server(s.conns - {id}, s.heap[h := Discard(s.heap[h])])
  }

  /** Remove the dead source from the connections it served; those left without a source are closed. */
  function DeathStep(s: Server, src: Source, served: set<u32>): Server
    requires forall id :: id in s.conns ==> s.conns[id] < |s.heap|
  {
    Server(
      map id | id in s.conns && !(id in served && RemoveFirst(s.heap[s.conns[id]].sources, src) == []) :: s.conns[id],
      seq(|s.heap|, h requires 0 <= h < |s.heap| =>
        if Current(s, h) && s.heap[h].id in served then
          var c := OnDrop(s.heap[h], src);
          if c.sources == [] then Discard(c) else c
        else s.heap[h]))
  }

  /** Why a pass over the table removes a connection: it is stale at `now`, or everything goes. */
  datatype Reason = StaleAt(now: int) | Shutdown

  predicate Gone(c: Conn, why: Reason) {
    why.Shutdown? || Stale(c, why.now)
  }

  /** Of the current connections among `ids`, drop from the table, and cancel, those that have to go. */
  function Sweep(s: Server, why: Reason, ids: set<u32>): Server
    requires forall id :: id in s.conns ==> s.conns[id] < |s.heap|
  {
    Server(
      map id | id in s.conns && !(id in ids && Gone(s.heap[s.conns[id]], why)) :: s.conns[id],
      seq(|s.heap|, h requires 0 <= h < |s.heap| =>
        if Current(s, h) && s.heap[h].id in ids && Gone(s.heap[h], why) then Discard(s.heap[h]) else s.heap[h]))
  }

  /** Replace the state behind one pointer. */
  function Update(s: Server, h: nat, c: Conn): Server
    requires h < |s.heap|
  {
    s.(heap := s.heap[h := c])
  }

  // ------------------------------------------------------------------ events

  datatype Event =
    | Syn(id: u32, num: u32, payload: Bytes, src: Source, now: int)
    | Data(h: nat, src: Source, num: u32, data: Bytes, now: int, clock: nat -> int)
    | Fin(h: nat, src: Source, clock: nat -> int)
    | Unlink(id: u32)
    | Cancel(h: nat)
    | Ready(h: nat, clock: nat -> int)
    | Upstream(h: nat, data: Bytes, now: int)
    | Pick(h: nat)
    | Drop(h: nat, src: Source)
    | Death(src: Source, served: set<u32>)
    | Tick(now: int)
    | CloseAll
    | Push(h: nat, i: nat)
    | Pop(h: nat)

  predicate Enabled(s: Server, e: Event) {
    match e
    case Ready(h, _) => h < |s.heap| && !s.heap[h].connected
    case Push(h, i) => h < |s.heap| && i < |s.heap[h].batches| && s.heap[h].batches[i] != []
    case Pop(h) => h < |s.heap| && s.heap[h].queue != []
    case Data(h, _, _, _, _, _) => h < |s.heap|
    case Fin(h, _, _) => h < |s.heap|
    case Upstream(h, _, _) => h < |s.heap|
    case Pick(h) => h < |s.heap|
    case Drop(h, _) => h < |s.heap|
    case Cancel(h) => h < |s.heap| && s.heap[h].leaving
    case _ => true
  }

  /** The step an event makes on the state behind pointer `h`, for the events that touch only that. */
  ghost function OnConn(c: Conn, e: Event): Conn
    requires e.Push? ==> e.i < |c.batches| && c.batches[e.i] != []
    requires e.Pop? ==> c.queue != []
  {
    match e
    case Data(_, src, num, data, now, clock) => OnData(c, src, num, data, now, clock)
    case Fin(_, _, clock) => OnFin(c, clock)
    case Ready(_, clock) => OnReady(c, clock)
    case Upstream(_, data, now) => OnUpstream(c, data, now)
    case Pick(_) => OnPick(c)
    case Drop(_, src) => OnDrop(c, src)
    case Cancel(_) => OnCancel(c)
    case Push(_, i) => OnPush(c, i)
    case Pop(_) => OnPop(c)
    case _ => c
  }

  predicate Local(e: Event) {
    e.Data? || e.Fin? || e.Ready? || e.Upstream? || e.Pick? || e.Drop? || e.Cancel? || e.Push? || e.Pop?
  }

  ghost function Apply(s: Server, e: Event): Server
    requires Enabled(s, e) && Alive(s)
  {
    match e
    case Syn(id, num, payload, src, now) => SynStep(s, id, num, payload, src, now)
    case Unlink(id) => UnlinkStep(s, id)
    case Death(src, served) => DeathStep(s, src, served)
    case Tick(now) => Sweep(s, StaleAt(now), s.conns.Keys)
    case CloseAll => Sweep(s, Shutdown, s.conns.Keys)
    case _ => Update(s, e.h, OnConn(s.heap[e.h], e))
  }

  // ------------------------------------------------------------------ lifecycle

  /** The table points to states that carry the right identifier and have not left it. */
  predicate Alive(s: Server) {
    forall id :: id in s.conns ==> s.conns[id] < |s.heap| && s.heap[s.conns[id]].id == id && !s.heap[s.conns[id]].leaving
  }

  /**
   Every connection state ever created is either the current entry for its identifier or has left the table,
   and only states that have left are cancelled.
   */
  ghost predicate Lifecycle(s: Server) {
    && Alive(s)
    && (forall h :: 0 <= h < |s.heap| ==> Current(s, h) || s.heap[h].leaving)
    && (forall h :: 0 <= h < |s.heap| && s.heap[h].cancelled ==> s.heap[h].leaving)
  }

  lemma {:induction false} OnConnKeeps(c: Conn, e: Event)
    requires e.Push? ==> e.i < |c.batches| && c.batches[e.i] != []
    requires e.Pop? ==> c.queue != []
    ensures OnConn(c, e).id == c.id && OnConn(c, e).start == c.start && OnConn(c, e).leaving == c.leaving
    ensures OnConn(c, e).cancelled == (c.cancelled || e.Cancel?)
  {
    match e
    case Data(_, src, num, data, now, clock) => DataKeeps(c, src, num, data, now, clock);
    case Fin(_, _, clock) => DrainKeeps(c, clock);
    case Ready(_, clock) => DrainKeeps(c.(connected := true, queueOpen := true, queue := []), clock);
    case _ => QuietKeeps(c, e);
  }

  /** What a drain does not touch. */
  predicate SameIdentity(c: Conn, c': Conn) {
    c'.id == c.id && c'.start == c.start && c'.leaving == c.leaving && c'.cancelled == c.cancelled
  }

  lemma {:induction false} DrainKeeps(c: Conn, clock: nat -> int)
    ensures SameIdentity(c, OnDrain(c, clock))
  {
  }

  lemma {:induction false} DataKeeps(c: Conn, src: Source, num: u32, data: Bytes, now: int, clock: nat -> int)
    ensures SameIdentity(c, OnData(c, src, num, data, now, clock))
  {
    DrainKeeps(c.(sources := if src in c.sources then c.sources else c.sources + [src],
                  lastActive := now, calls := c.calls + [Ins(num, data)]), clock);
  }

  lemma {:induction false} QuietKeeps(c: Conn, e: Event)
    requires !e.Data? && !e.Fin? && !e.Ready?
    requires e.Push? ==> e.i < |c.batches| && c.batches[e.i] != []
    requires e.Pop? ==> c.queue != []
    ensures SameIdentity(c.(cancelled := c.cancelled || e.Cancel?), OnConn(c, e))
  {
  }

  /**
   Pointers stay valid, and a current entry is never replaced by another one: it stays, or it leaves;
   what is cancelled stays cancelled.
   */
  ghost predicate Evolves(s: Server, s': Server)
    requires Alive(s)
  {
    && |s.heap| <= |s'.heap|
    && (forall h :: 0 <= h < |s.heap| ==> s'.heap[h].id == s.heap[h].id && s'.heap[h].start == s.heap[h].start)
    && (forall id :: id in s.conns && id in s'.conns ==> s'.conns[id] == s.conns[id])
    && (forall id :: id in s.conns && id !in s'.conns ==> s'.heap[s.conns[id]].leaving)
    && (forall h :: 0 <= h < |s.heap| && s.heap[h].cancelled ==> s'.heap[h].cancelled)
  }

  lemma {:induction false} UpdateLifecycle(s: Server, h: nat, c: Conn)
    requires Lifecycle(s) && h < |s.heap|
    requires c.id == s.heap[h].id && c.start == s.heap[h].start && c.leaving == s.heap[h].leaving
    requires (c.cancelled ==> c.leaving) && (s.heap[h].cancelled ==> c.cancelled)
    ensures Lifecycle(Update(s, h, c)) && Evolves(s, Update(s, h, c))
  {
    var s' := Update(s, h, c);
    forall i | 0 <= i < |s'.heap| ensures Current(s', i) || s'.heap[i].leaving {
      assert Current(s, i) || s.heap[i].leaving;
    }
  }

  lemma {:induction false} SynLifecycle(s: Server, id: u32, num: u32, payload: Bytes, src: Source, now: int)
    requires Lifecycle(s)
    ensures var s' := SynStep(s, id, num, payload, src, now); Lifecycle(s') && Evolves(s, s')
  {
    var s' := SynStep(s, id, num, payload, src, now);
    if id in s.conns {
      var h := s.conns[id];
      UpdateLifecycle(s, h, s.heap[h].(sources := s.heap[h].sources + [src]));
    } else {
      forall i | 0 <= i < |s'.heap| ensures Current(s', i) || s'.heap[i].leaving {
        assert i < |s.heap| ==> Current(s, i) || s.heap[i].leaving;
      }
    }
  }

  lemma {:induction false} UnlinkLifecycle(s: Server, id: u32)
    requires Lifecycle(s)
    ensures var s' := UnlinkStep(s, id); Lifecycle(s') && Evolves(s, s')
  {
    var s' := UnlinkStep(s, id);
    forall i | 0 <= i < |s'.heap| ensures Current(s', i) || s'.heap[i].leaving {
      assert Current(s, i) || s.heap[i].leaving;
    }
  }

  lemma {:induction false} DeathLifecycle(s: Server, src: Source, served: set<u32>)
    requires Lifecycle(s)
    ensures var s' := DeathStep(s, src, served); Lifecycle(s') && Evolves(s, s')
  {
    var s' := DeathStep(s, src, served);
    forall i | 0 <= i < |s'.heap| ensures Current(s', i) || s'.heap[i].leaving {
      assert Current(s, i) || s.heap[i].leaving;
    }
  }

  lemma {:induction false} SweepLifecycle(s: Server, why: Reason, ids: set<u32>)
    requires Lifecycle(s)
    ensures var s' := Sweep(s, why, ids); Lifecycle(s') && Evolves(s, s')
  {
    var s' := Sweep(s, why, ids);
    forall i | 0 <= i < |s'.heap| ensures Current(s', i) || s'.heap[i].leaving {
      assert Current(s, i) || s.heap[i].leaving;
    }
  }

  /** Every step of the server keeps the lifecycle invariant. */
  lemma {:induction false} LifecycleStep(s: Server, e: Event)
    requires Lifecycle(s) && Enabled(s, e)
    ensures Lifecycle(Apply(s, e)) && Evolves(s, Apply(s, e))
  {
    match e
    case Syn(id, num, payload, src, now) => SynLifecycle(s, id, num, payload, src, now);
    case Unlink(id) => UnlinkLifecycle(s, id);
    case Death(src, served) => DeathLifecycle(s, src, served);
    case Tick(now) => SweepLifecycle(s, StaleAt(now), s.conns.Keys);
    case CloseAll => SweepLifecycle(s, Shutdown, s.conns.Keys);
    case _ =>
      OnConnKeeps(s.heap[e.h], e);
      UpdateLifecycle(s, e.h, OnConn(s.heap[e.h], e));
  }

  // ------------------------------------------------------------------ what is cancelled

  /** The state is the current entry of its identifier, or it has been cancelled. */
  predicate Kept(s: Server, h: nat) {
    Current(s, h) || (h < |s.heap| && s.heap[h].cancelled)
  }

  /** The event takes the state out of the table and leaves the cancelling for later. */
  predicate Unlinks(s: Server, e: Event, h: nat) {
    e.Unlink? && e.id in s.conns && s.conns[e.id] == h
  }

  lemma {:induction false} LocalKept(s: Server, e: Event, h: nat)
    requires Lifecycle(s) && Enabled(s, e) && Local(e) && h < |s.heap|
    ensures Kept(Apply(s, e), h) <==> Kept(s, h) || e == Cancel(h)
  {
    OnConnKeeps(s.heap[e.h], e);
  }

  lemma {:induction false} UnlinkKept(s: Server, id: u32, h: nat)
    requires Lifecycle(s) && h < |s.heap|
    ensures Kept(UnlinkStep(s, id), h) <==> Kept(s, h) && !Unlinks(s, Unlink(id), h)
  {
  }

  lemma {:induction false} DeathKept(s: Server, src: Source, served: set<u32>, h: nat)
    requires Lifecycle(s) && h < |s.heap|
    ensures Kept(DeathStep(s, src, served), h) <==> Kept(s, h)
  {
  }

  lemma {:induction false} SweepKept(s: Server, why: Reason, ids: set<u32>, h: nat)
    requires Lifecycle(s) && h < |s.heap|
    ensures Kept(Sweep(s, why, ids), h) <==> Kept(s, h)
  {
  }

  lemma {:induction false} SynKept(s: Server, id: u32, num: u32, payload: Bytes, src: Source, now: int, h: nat)
    requires Lifecycle(s) && h < |SynStep(s, id, num, payload, src, now).heap|
    ensures Kept(SynStep(s, id, num, payload, src, now), h) <==> h >= |s.heap| || Kept(s, h)
  {
  }

  /**
   Every step: a state is current or cancelled after it if and only if it is new, or it was so before or is
   cancelled now, and the step is not the first half of its removal.
   */
  lemma {:induction false} KeptStep(s: Server, e: Event, h: nat)
    requires Lifecycle(s) && Enabled(s, e) && h < |Apply(s, e).heap|
    ensures Kept(Apply(s, e), h) <==> h >= |s.heap| || ((Kept(s, h) || e == Cancel(h)) && !Unlinks(s, e, h))
  {
    match e
    case Syn(id, num, payload, src, now) => SynKept(s, id, num, payload, src, now, h);
    case Unlink(id) => UnlinkKept(s, id, h);
    case Death(src, served) => DeathKept(s, src, served, h);
    case Tick(now) => SweepKept(s, StaleAt(now), s.conns.Keys, h);
    case CloseAll => SweepKept(s, Shutdown, s.conns.Keys, h);
    case _ => LocalKept(s, e, h);
  }

  function Empty(): Server {
    Server(map[], [])
  }

  // ------------------------------------------------------------------ a source dies

  /**
   After the clean-up of a dead source, every served connection that survives still has a source, and the dead
   source is still listed in a surviving served connection exactly when it had been listed there twice.
   */
  lemma {:induction false} DeathIsExact(s: Server, src: Source, served: set<u32>, id: u32)
    requires Alive(s) && id in s.conns && id in served
    ensures var s' := DeathStep(s, src, served);
            && (id in s'.conns <==> RemoveFirst(s.heap[s.conns[id]].sources, src) != [])
            && (id in s'.conns ==> s'.heap[s.conns[id]].sources != [])
            && (id in s'.conns ==> (src in s'.heap[s.conns[id]].sources <==> Count(s.heap[s.conns[id]].sources, src) >= 2))
            && (id !in s'.conns ==> s'.heap[s.conns[id]].cancelled)
  {
    RemoveFirstCount(s.heap[s.conns[id]].sources, src);
  }

  /** Served identifiers can be cleaned up one by one, in any order. */
  lemma {:induction false} DeathOneByOne(s: Server, src: Source, done: set<u32>, id: u32)
    requires Alive(s) && id !in done && Alive(DeathStep(s, src, done))
    ensures DeathStep(DeathStep(s, src, done), src, {id}) == DeathStep(s, src, done + {id})
  {
    var s1 := DeathStep(s, src, done);
    var s2, all := DeathStep(s1, src, {id}), DeathStep(s, src, done + {id});
    forall h | 0 <= h < |s.heap| ensures s2.heap[h] == all.heap[h] {
      assert s1.heap[h].id == s.heap[h].id;
    }
    assert s2.conns == all.conns;
  }

  /** So can the connections of a clean-up pass. */
  lemma {:induction false} SweepOneByOne(s: Server, why: Reason, done: set<u32>, id: u32)
    requires Alive(s) && id !in done && Alive(Sweep(s, why, done))
    ensures Sweep(Sweep(s, why, done), why, {id}) == Sweep(s, why, done + {id})
  {
    var s1 := Sweep(s, why, done);
    var s2, all := Sweep(s1, why, {id}), Sweep(s, why, done + {id});
    forall h | 0 <= h < |s.heap| ensures s2.heap[h] == all.heap[h] {
      assert s1.heap[h].id == s.heap[h].id;
    }
    assert s2.conns == all.conns;
  }

  lemma {:induction false} DeathOne(s: Server, src: Source, id: u32)
    requires Alive(s)
    ensures DeathStep(s, src, {}) == s
    ensures DeathStep(s, src, {id}) ==
            if id !in s.conns then s
            else
              var c := OnDrop(s.heap[s.conns[id]], src);
              var s1 := Update(s, s.conns[id], c);
              if c.sources == [] then RemoveStep(s1, id) else s1
  {
    var none, one := DeathStep(s, src, {}), DeathStep(s, src, {id});
    assert none.conns == s.conns && none.heap == s.heap;
    if id in s.conns {
      var c := OnDrop(s.heap[s.conns[id]], src);
      var s1 := Update(s, s.conns[id], c);
      var s2 := if c.sources == [] then RemoveStep(s1, id) else s1;
      assert one.conns == s2.conns && one.heap == s2.heap;
    } else {
      assert one.conns == s.conns && one.heap == s.heap;
    }
  }

  lemma {:induction false} SweepOne(s: Server, why: Reason, id: u32)
    requires Alive(s)
    ensures Sweep(s, why, {}) == s
    ensures Sweep(s, why, {id}) == if id in s.conns && Gone(s.heap[s.conns[id]], why) then RemoveStep(s, id) else s
  {
    var none, one := Sweep(s, why, {}), Sweep(s, why, {id});
    assert none.conns == s.conns && none.heap == s.heap;
    if id in s.conns && Gone(s.heap[s.conns[id]], why) {
      var s2 := RemoveStep(s, id);
      assert one.conns == s2.conns && one.heap == s2.heap;
    } else {
      assert one.conns == s.conns && one.heap == s.heap;
    }
  }
}
