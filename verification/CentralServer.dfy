/** The central server as the object its frame loops share; every method refines a step of the state machine. */
module CentralServerImpl {
  import opened Basics
  import opened Server
  import opened WriteQueue
  import opened ReordererImpl
  import opened ConnStateImpl
  import Codec
  import opened Sending
  import opened Dispatching

  ghost function Parts(states: seq<ConnState>): set<object> {
    (set h | 0 <= h < |states| :: states[h] as object) + (set h | 0 <= h < |states| :: states[h].reorderer as object)
  }

  ghost function Handles(conns: map<u32, ConnState>): (table: map<u32, nat>) {
    map id | id in conns :: conns[id].handle
  }

  ghost function Views(states: seq<ConnState>): (heap: seq<Conn>)
    reads Parts(states)
    ensures |heap| == |states| && forall h :: 0 <= h < |states| ==> heap[h] == states[h].View()
  {
    seq(|states|, h requires 0 <= h < |states| reads Parts(states) => states[h].View())
  }

  /** The states are sound and, as handles tell states and their reorderers apart, share nothing. */
  ghost predicate Intact(states: seq<ConnState>)
    reads Parts(states)
  {
    forall h :: 0 <= h < |states| ==> states[h].handle == h && states[h].Valid()
  }

  ghost function OtherParts(states: seq<ConnState>, h: nat): set<object> {
    (set g | 0 <= g < |states| && g != h :: states[g] as object) + (set g | 0 <= g < |states| && g != h :: states[g].reorderer as object)
  }

  /** All states but the one at `h` are sound and look as in `views`. */
  ghost predicate Others(states: seq<ConnState>, h: nat, views: seq<Conn>)
    reads OtherParts(states, h)
  {
    |views| == |states| && forall g :: 0 <= g < |states| && g != h ==> states[g].handle == g && states[g].Valid() && states[g].View() == views[g]
  }

  lemma {:induction false} OnlyChanged(states: seq<ConnState>, h: nat, views: seq<Conn>)
    requires h < |states| && Others(states, h, views) && states[h].handle == h && states[h].Valid()
    ensures Intact(states) && Views(states) == views[h := states[h].View()]
  {
  }

  class CentralServer {
    var conns: map<u32, ConnState>

    /** Every state ever created, in order of creation. */
    ghost var states: seq<ConnState>

    ghost predicate Known(st: ConnState)
      reads this`states
    {
      st.handle < |states| && states[st.handle] == st
    }

    ghost predicate Valid()
      reads this, Parts(states)
    {
      && Intact(states)
      && (forall id :: id in conns ==> Known(conns[id]) && conns[id].id == id && !conns[id].leaving)
    }

    ghost function View(): Server
      reads this, Parts(states)
    {
      Server(Handles(conns), Views(states))
    }

    constructor ()
      ensures Valid() && View() == Empty()
    {
      conns, states := map[], [];
    }

    method HandleData(id: u32, src: Source, num: u32, data: Bytes, now: int, clock: nat -> int)
      requires Valid()
      modifies Parts(states)
      ensures Valid() && conns == old(conns) && states == old(states)
      ensures View() == if id !in old(conns) then old(View())
                        else Update(old(View()), old(conns[id].handle),
                                    Settled(OnData(old(conns[id].View()), src, num, data, now, clock)))
    {
      if id !in conns {
        return;
      }
      DataTo(conns[id], src, num, data, now, clock);
    }

    method DataTo(state: ConnState, src: Source, num: u32, data: Bytes, now: int, clock: nat -> int)
      requires Valid() && Known(state)
      modifies Parts(states)
      ensures Valid() && conns == old(conns) && states == old(states)
      ensures View() == Update(old(View()), state.handle, Settled(OnData(old(state.View()), src, num, data, now, clock)))
    {
      ghost var handled := Settled(OnData(state.View(), src, num, data, now, clock));
      ghost var views := Views(states);
      assert Others(states, state.handle, views) && state !in OtherParts(states, state.handle) && state.reorderer !in OtherParts(states, state.handle);
      state.HandleData(src, num, data, now, clock);
      assert state.View() == handled && state.Valid() && state.leaving == old(state.leaving);
      OnlyChanged(states, state.handle, views);
    }

    method HandleFin(id: u32, clock: nat -> int)
      requires Valid()
      modifies this`conns, Parts(states)
      ensures Valid() && states == old(states) && conns == old(conns) - {id}
      ensures View() == if id !in old(conns) then old(View())
                        else RemoveStep(Update(old(View()), old(conns[id].handle),
                                               Settled(OnFin(old(conns[id].View()), clock))), id)
    {
      if id !in conns {
        assert conns - {id} == conns;
        return;
      }
      FinTo(conns[id], clock);
      RemoveConn(id);
    }

    method FinTo(state: ConnState, clock: nat -> int)
      requires Valid() && Known(state)
      modifies Parts(states)
      ensures Valid() && conns == old(conns) && states == old(states)
      ensures View() == Update(old(View()), state.handle, Settled(OnFin(old(state.View()), clock)))
    {
      ghost var drained := Settled(OnFin(state.View(), clock));
      ghost var views := Views(states);
      assert Others(states, state.handle, views) && state !in OtherParts(states, state.handle) && state.reorderer !in OtherParts(states, state.handle);
      state.HandleFin(clock);
      assert state.View() == drained && state.Valid() && state.leaving == old(state.leaving);
      OnlyChanged(states, state.handle, views);
    }

    /** Also what a RST does, and the end of the upstream relay or a failed upstream connection. */
    method RemoveConn(id: u32)
      requires Valid()
      modifies this`conns, if id in conns then {conns[id]} else {}
      ensures Valid() && states == old(states) && conns == old(conns) - {id}
      ensures View() == RemoveStep(old(View()), id)
    {
      if id !in conns {
        assert conns - {id} == conns;
        return;
      }
      var state := conns[id];
      Forget(id);
      Cancel(state);
    }

    method Forget(id: u32)
      requires Valid()
      modifies this`conns
      ensures Valid() && conns == old(conns) - {id}
      ensures View() == old(View()).(conns := old(View()).conns - {id})
    {
      conns := conns - {id};
      assert Handles(conns) == Handles(old(conns)) - {id};
    }

    method Cancel(state: ConnState)
      requires Valid() && Known(state) && state !in conns.Values
      modifies state`cancelled, state`leaving
      ensures Valid() && View() == Update(old(View()), state.handle, Discard(old(state.View())))
    {
      state.leaving, state.cancelled := true, true;
      assert Views(states) == old(Views(states))[state.handle := state.View()];
    }

    /** A SYN of a known connection. */
    method AddSource(id: u32, src: Source)
      requires Valid() && id in conns
      modifies conns[id]
      ensures Valid() && conns == old(conns) && View() == Update(old(View()), conns[id].handle, old(conns[id].View()).(sources := old(conns[id].sources) + [src]))
    {
      var state := conns[id];
      state.sources := state.sources + [src];
      assert Views(states) == old(Views(states))[state.handle := state.View()];
    }

    /** A SYN of a new connection. */
    method AddConn(id: u32, num: u32, src: Source, now: int)
      requires Valid() && id !in conns
      modifies this
      ensures Valid() && View() == Server(old(View()).conns[id := |old(View()).heap|], old(View()).heap + [NewConn(id, num, src, now)])
    {
      var state := Create(id, num, src, now);
      Enter(id, state);
    }

    method Enter(id: u32, state: ConnState)
      requires Valid() && Known(state) && state.id == id && !state.leaving
      modifies this`conns
      ensures Valid() && View() == old(View()).(conns := old(View()).conns[id := state.handle])
    {
      conns := conns[id := state];
      assert Handles(conns) == Handles(old(conns))[id := state.handle];
    }

    method Create(id: u32, num: u32, src: Source, now: int) returns (state: ConnState)
      requires Valid()
      modifies this`states
      ensures Valid() && Known(state) && state.id == id && !state.leaving && state.handle == |old(states)|
      ensures View() == old(View()).(heap := old(View()).heap + [NewConn(id, num, src, now)])
    {
      state := new ConnState(id, num, src, now, |states|);
      states := states + [state];
      assert Views(states) == old(Views(states)) + [state.View()];
    }

    method HandleSyn(id: u32, num: u32, payload: Bytes, src: Source, now: int)
      requires Valid()
      modifies this, if id in conns then {conns[id]} else {}
      ensures Valid() && View() == SynStep(old(View()), id, num, payload, src, now)
    {
      if id in conns {
        AddSource(id, src);
      } else if Codec.DecodeSyn(payload).Some? {
        AddConn(id, num, src, now);
      }
    }

    /** One turn of the loop over the identifiers a dead source served. */
    method ForgetSource(src: Source, id: u32)
      requires Valid()
      modifies this`conns, Parts(states)
      ensures Valid() && states == old(states)
      ensures View() == DeathStep(old(View()), src, {id})
    {
      DeathOne(View(), src, id);
      if id in conns {
        var state := conns[id];
        DropFrom(state, src);
        if state.sources == [] {
          RemoveConn(id);
        }
      }
    }

    method DropFrom(state: ConnState, src: Source)
      requires Valid() && Known(state)
      modifies state`sources
      ensures Valid() && View() == Update(old(View()), state.handle, OnDrop(old(state.View()), src))
    {
      state.DropSource(src);
      assert Views(states) == old(Views(states))[state.handle := state.View()];
    }

    method ForgetNext(src: Source, id: u32, ghost was: Server, ghost done: set<u32>)
      requires Valid() && Alive(was) && id !in done && View() == DeathStep(was, src, done)
      modifies this`conns, Parts(states)
      ensures Valid() && states == old(states) && View() == DeathStep(was, src, done + {id})
    {
      DeathOneByOne(was, src, done, id);
      ForgetSource(src, id);
    }

    /** A source is gone: take it off every connection it served. */
    method CleanupSource(src: Source, served: set<u32>)
      requires Valid()
      modifies this`conns, Parts(states)
      ensures Valid() && View() == DeathStep(old(View()), src, served)
    {
      ghost var was := View();
      var todo := served;
      DeathOne(was, src, 0);
      assert served - todo == {};
      while todo != {}
        invariant Valid() && states == old(states) && todo <= served
        invariant View() == DeathStep(was, src, served - todo)
      {
        var id :| id in todo;
        ghost var done := served - todo;
        todo := todo - {id};
        assert served - todo == done + {id};
        ForgetNext(src, id, was, done);
      }
      assert served - todo == served;
    }

    /** One turn of a pass over the table. */
    method Visit(why: Reason, id: u32)
      requires Valid()
      modifies this`conns, Parts(states)
      ensures Valid() && states == old(states) && View() == Sweep(old(View()), why, {id})
    {
      SweepOne(View(), why, id);
      if id in conns {
        var state := conns[id];
        var gone := why.Shutdown?;
        if !gone {
          if !state.connected && why.now - state.created > 60 * SECOND {
            gone := true;
          }
          if |state.sources| == 0 && why.now - state.created > 30 * SECOND {
            gone := true;
          }
          if why.now - state.lastActive > 60 * SECOND {
            gone := true;
          }
        }
        if gone {
          RemoveConn(id);
        }
      }
    }

    method VisitNext(why: Reason, id: u32, ghost was: Server, ghost done: set<u32>)
      requires Valid() && Alive(was) && id !in done && View() == Sweep(was, why, done)
      modifies this`conns, Parts(states)
      ensures Valid() && states == old(states) && View() == Sweep(was, why, done + {id})
    {
      SweepOneByOne(was, why, done, id);
      Visit(why, id);
    }

    /** A pass over the connections `all`. */
    method VisitAll(why: Reason, all: set<u32>)
      requires Valid()
      modifies this`conns, Parts(states)
      ensures Valid() && View() == Sweep(old(View()), why, all)
    {
      ghost var was := View();
      var todo := all;
      SweepOne(was, why, 0);
      assert all - todo == {};
      while todo != {}
        invariant Valid() && states == old(states) && todo <= all
        invariant View() == Sweep(was, why, all - todo)
      {
        var id :| id in todo;
        ghost var done := all - todo;
        todo := todo - {id};
        assert all - todo == done + {id};
        VisitNext(why, id, was, done);
      }
      assert all - todo == all;
    }

    /** A tick of the clean-up loop, or the closing of everything. */
    method Cleanup(why: Reason)
      requires Valid()
      modifies this`conns, Parts(states)
      ensures Valid() && View() == Sweep(old(View()), why, old(View()).conns.Keys)
    {
      assert View().conns.Keys == conns.Keys;
      VisitAll(why, conns.Keys);
    }

    /** The upstream connection of the state behind a pointer is up; the state may have left the table. */
    method UpstreamReady(state: ConnState, clock: nat -> int)
      requires Valid() && Known(state)
      modifies Parts(states)
      ensures Valid() && conns == old(conns) && states == old(states)
      ensures View() == Update(old(View()), state.handle, Settled(OnReady(old(state.View()), clock)))
    {
      ghost var ready := Settled(OnReady(state.View(), clock));
      ghost var views := Views(states);
      assert Others(states, state.handle, views) && state !in OtherParts(states, state.handle) && state.reorderer !in OtherParts(states, state.handle);
      state.UpstreamReady(clock);
      assert state.View() == ready && state.Valid() && state.leaving == old(state.leaving);
      OnlyChanged(states, state.handle, views);
    }

    /** A frame for the client leaves through one of the sources of the connection, if it is still there. */
    method SendFrame(id: u32, works: set<Source>) returns (via: Option<Source>)
      requires Valid()
      modifies if id in conns then {conns[id]} else {}
      ensures Valid()
      ensures id !in conns ==> via.None? && View() == old(View())
      ensures id in conns ==>
                var o := SendOn(old(conns[id].View()), works);
                via == o.via && View() == Update(old(View()), conns[id].handle, o.conn)
    {
      if id !in conns {
        return None;
      }
      var state := conns[id];
      via := state.SendFrame(works);
      assert Views(states) == old(Views(states))[state.handle := state.View()];
    }

    /** The handler of every frame, run without another one in between. */
    method DispatchFrame(f: Codec.Frame, src: Source, now: int, clock: nat -> int)
      requires Valid()
      modifies this, Parts(states)
      ensures Valid() && View() == Dispatch(old(View()), f, src, now, clock)
    {
      if Codec.IsSyn(f.flags) {
        HandleSyn(f.connId, f.num, f.payload, src, now);
      } else if Codec.IsFin(f.flags) {
        HandleFin(f.connId, clock);
      } else if Codec.IsRst(f.flags) {
        RemoveConn(f.connId);
      } else {
        HandleData(f.connId, src, f.num, f.payload, now, clock);
      }
    }
  }
}
