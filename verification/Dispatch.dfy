/**
 What one frame does to the server when its handler runs without another one in between, and why that is a run
 of the state machine, so that everything proved about its runs holds for the handlers.
 */
module Dispatching {
  import opened Basics
  import opened Server
  import opened WriteQueue
  import Codec
  import Reorder

  /** A SYN bit decides first, then FIN, then RST; every other frame is data. */
  ghost function Dispatch(s: Server, f: Codec.Frame, src: Source, now: int, clock: nat -> int): Server
    requires Alive(s)
  {
    var id := f.connId;
    if Codec.IsSyn(f.flags) then SynStep(s, id, f.num, f.payload, src, now)
    else if id !in s.conns then s
    else
      var h := s.conns[id];
      if Codec.IsFin(f.flags) then RemoveStep(Update(s, h, Settled(OnFin(s.heap[h], clock))), id)
      else if Codec.IsRst(f.flags) then RemoveStep(s, id)
      else Update(s, h, Settled(OnData(s.heap[h], src, f.num, f.payload, now, clock)))
  }

  /** The state after a sequence of events, if each is possible when its turn comes. */
  ghost function Steps(s: Server, es: seq<Event>): Option<Server>
    decreases |es|
  {
    if es == [] then Some(s)
    else if Alive(s) && Enabled(s, es[0]) then Steps(Apply(s, es[0]), es[1..])
    else None
  }

  lemma {:induction false} StepsLifecycle(s: Server, es: seq<Event>)
    requires Lifecycle(s) && Steps(s, es).Some?
    ensures Lifecycle(Steps(s, es).value)
    decreases |es|
  {
    if es != [] {
      LifecycleStep(s, es[0]);
      StepsLifecycle(Apply(s, es[0]), es[1..]);
    }
  }

  lemma {:induction false} StepsConcat(s: Server, a: seq<Event>, b: seq<Event>)
    requires Steps(s, a).Some?
    ensures Steps(s, a + b) == Steps(Steps(s, a).value, b)
    decreases |a|
  {
    if a == [] {
      assert a + b == b;
    } else {
      StepsConcat(Apply(s, a[0]), a[1..], b);
      StepsFirst(s, a + b, a[0], a[1..] + b);
    }
  }

  lemma {:induction false} StepsFirst(s: Server, es: seq<Event>, e: Event, rest: seq<Event>)
    requires Alive(s) && Enabled(s, e) && es == [e] + rest
    ensures Steps(s, es) == Steps(Apply(s, e), rest)
  {
    assert es[1..] == rest;
  }

  /** A handler's pushes, one after the other, leave the connection settled. */
  lemma {:induction false} PushesSettle(s: Server, h: nat) returns (es: seq<Event>)
    requires Alive(s) && h < |s.heap| && |s.heap[h].batches| <= 1
    requires s.heap[h].batches != [] ==> s.heap[h].batches[0] != []
    ensures Steps(s, es) == Some(Update(s, h, Settled(s.heap[h])))
    decreases |Pending(s.heap[h])|
  {
    var c := s.heap[h];
    if c.batches == [] {
      PushAllIsSettled(c);
      assert s.heap[h := c] == s.heap;
      es := [];
    } else {
      var s1 := Apply(s, Push(h, 0));
      PushOffers(c);
      var rest := PushesSettle(s1, h);
      es := [Push(h, 0)] + rest;
      assert es[1..] == rest;
      assert s1.heap[h := Settled(c)] == s.heap[h := Settled(c)];
    }
  }

  /** Nobody is between draining and pushing. */
  ghost predicate Quiet(s: Server) {
    forall h :: 0 <= h < |s.heap| ==> s.heap[h].batches == []
  }

  /** A frame handled on its own is a run of the state machine, and leaves nobody between draining and pushing. */
  lemma {:induction false} DispatchIsARun(s: Server, f: Codec.Frame, src: Source, now: int, clock: nat -> int) returns (es: seq<Event>)
    requires Lifecycle(s) && Quiet(s)
    ensures Steps(s, es) == Some(Dispatch(s, f, src, now, clock))
    ensures Quiet(Dispatch(s, f, src, now, clock)) && Lifecycle(Dispatch(s, f, src, now, clock))
  {
    var id := f.connId;
    if Codec.IsSyn(f.flags) {
      es := OneStep(s, Syn(id, f.num, f.payload, src, now));
    } else if id !in s.conns {
      es := [];
    } else if Codec.IsFin(f.flags) {
      es := DrainingStep(s, Fin(s.conns[id], src, clock));
      var s1 := Steps(s, es).value;
      StepsLifecycle(s, es);
      var last := RemovingSteps(s1, id);
      StepsConcat(s, es, last);
      es := es + last;
    } else if Codec.IsRst(f.flags) {
      es := RemovingSteps(s, id);
    } else {
      es := DrainingStep(s, Data(s.conns[id], src, f.num, f.payload, now, clock));
    }
    StepsLifecycle(s, es);
  }

  /** Both halves of a removal, one after the other. */
  lemma {:induction false} RemovingSteps(s: Server, id: u32) returns (es: seq<Event>)
    requires Lifecycle(s) && id in s.conns
    ensures Steps(s, es) == Some(RemoveStep(s, id))
  {
    var h := s.conns[id];
    var s1 := UnlinkStep(s, id);
    LifecycleStep(s, Unlink(id));
    var first := OneStep(s, Unlink(id));
    var last := OneStep(s1, Cancel(h));
    StepsConcat(s, first, last);
    es := first + last;
    assert s1.heap[h := OnCancel(s1.heap[h])] == s.heap[h := Discard(s.heap[h])];
  }

  /**
   What a frame leaves behind, by its flags: after a SYN the identifier is in the table if it was or its payload names
   a target; after a FIN or RST it is not, and its state is cancelled; after data the table is as it was, and the
   frame has entered the state's reorderer over a source that the state lists.
   */
  lemma {:induction false} DispatchOutcome(s: Server, f: Codec.Frame, src: Source, now: int, clock: nat -> int)
    requires Lifecycle(s)
    ensures var s', id := Dispatch(s, f, src, now, clock), f.connId;
            && |s.heap| <= |s'.heap|
            && (Codec.IsSyn(f.flags) ==> (id in s'.conns <==> id in s.conns || Codec.DecodeSyn(f.payload).Some?))
            && (!Codec.IsSyn(f.flags) && (Codec.IsFin(f.flags) || Codec.IsRst(f.flags)) ==>
                  s'.conns == s.conns - {id} && (id in s.conns ==> s'.heap[s.conns[id]].cancelled))
            && (!Codec.IsSyn(f.flags) && !Codec.IsFin(f.flags) && !Codec.IsRst(f.flags) ==>
                  && s'.conns == s.conns
                  && (id in s.conns ==> Reorder.Ins(f.num, f.payload) in s'.heap[s.conns[id]].calls && src in s'.heap[s.conns[id]].sources))
  {
    var id := f.connId;
    if !Codec.IsSyn(f.flags) {
      if id !in s.conns {
        assert s.conns - {id} == s.conns;
      } else {
        DataOutcome(s.heap[s.conns[id]], src, f.num, f.payload, now, clock);
      }
    }
  }

  lemma {:induction false} DataOutcome(c: Conn, src: Source, num: u32, data: Bytes, now: int, clock: nat -> int)
    ensures var c' := Settled(OnData(c, src, num, data, now, clock)); Reorder.Ins(num, data) in c'.calls && src in c'.sources
  {
    var all := c.calls + [Reorder.Ins(num, data)];
    assert all[|c.calls|] == Reorder.Ins(num, data);
    assert all <= OnData(c, src, num, data, now, clock).calls;
  }

  lemma {:induction false} OneStep(s: Server, e: Event) returns (es: seq<Event>)
    requires Lifecycle(s) && Enabled(s, e)
    ensures es == [e] && Steps(s, es) == Some(Apply(s, e))
  {
    es := [e];
    assert Steps(Apply(s, e), es[1..]) == Some(Apply(s, e));
  }

  /** One drain followed by its pushes. */
  lemma {:induction false} DrainingStep(s: Server, e: Event) returns (es: seq<Event>)
    requires Lifecycle(s) && Quiet(s) && Enabled(s, e) && (e.Data? || e.Fin? || e.Ready?)
    ensures Steps(s, es) == Some(Update(s, e.h, Settled(OnConn(s.heap[e.h], e))))
    ensures Quiet(Update(s, e.h, Settled(OnConn(s.heap[e.h], e))))
  {
    var s1 := Apply(s, e);
    var c := s1.heap[e.h];
    LifecycleStep(s, e);
    DrainLeavesOne(s.heap[e.h], e);
    var rest := PushesSettle(s1, e.h);
    es := [e] + rest;
    assert es[1..] == rest;
    assert s1.heap[e.h := Settled(c)] == s.heap[e.h := Settled(c)];
  }

  lemma {:induction false} DrainLeavesOne(c: Conn, e: Event)
    requires c.batches == [] && (e.Data? || e.Fin? || e.Ready?)
    ensures |OnConn(c, e).batches| <= 1 && (OnConn(c, e).batches != [] ==> OnConn(c, e).batches[0] != [])
    ensures Settled(OnConn(c, e)).batches == []
  {
  }
}
