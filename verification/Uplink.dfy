/** The client's relay over its pool: which tunnel connection takes each numbered frame. */
module Uplink {
  import opened Basics
  import opened Codec
  import opened Pool
  import opened Splitter

  /** What a connection took of the frames, if `takers` says which connection took each of them. */
  ghost function Taken(frames: seq<Frame>, takers: seq<Option<TunnelConn>>, tc: TunnelConn): seq<Frame>
    requires |frames| == |takers|
  {
    if frames == [] then []
    else
      var n := |frames| - 1;
      Taken(frames[..n], takers[..n], tc) + if takers[n] == Some(tc) then [frames[n]] else []
  }

  lemma {:induction false} TakenSnoc(frames: seq<Frame>, takers: seq<Option<TunnelConn>>, f: Frame, taker: Option<TunnelConn>, tc: TunnelConn)
    requires |frames| == |takers|
    ensures Taken(frames + [f], takers + [taker], tc) == Taken(frames, takers, tc) + if taker == Some(tc) then [f] else []
  {
    assert (frames + [f])[..|frames|] == frames && (takers + [taker])[..|takers|] == takers;
  }

  lemma {:induction false} TakenIff(frames: seq<Frame>, takers: seq<Option<TunnelConn>>, tc: TunnelConn, f: Frame)
    requires |frames| == |takers|
    ensures f in Taken(frames, takers, tc) <==> exists k :: 0 <= k < |frames| && frames[k] == f && takers[k] == Some(tc)
  {
    if frames != [] {
      var n := |frames| - 1;
      TakenIff(frames[..n], takers[..n], tc, f);
      if k :| 0 <= k < |frames| && frames[k] == f && takers[k] == Some(tc) {
        assert k < n ==> frames[..n][k] == f && takers[..n][k] == Some(tc);
      }
      if k :| 0 <= k < n && frames[..n][k] == f && takers[..n][k] == Some(tc) {
        assert frames[k] == f && takers[k] == Some(tc);
      }
    }
  }

  /** Numbered frames are distinct until the numbers wrap, so no two connections took the same one. */
  lemma {:induction false} TakenByOne(connId: u32, first: nat, chunks: seq<Bytes>, takers: seq<Option<TunnelConn>>,
                                      a: TunnelConn, b: TunnelConn, f: Frame)
    requires |chunks| == |takers| <= U32_MOD
    requires f in Taken(Numbered(connId, first, chunks), takers, a) && f in Taken(Numbered(connId, first, chunks), takers, b)
    ensures a == b
  {
    var fs := Numbered(connId, first, chunks);
    TakenIff(fs, takers, a, f);
    TakenIff(fs, takers, b, f);
    var j :| 0 <= j < |fs| && fs[j] == f && takers[j] == Some(a);
    var k :| 0 <= k < |fs| && fs[k] == f && takers[k] == Some(b);
    NumbersDiffer(first, j, k);
  }

  lemma {:induction false} NumbersDiffer(first: nat, j: nat, k: nat)
    requires j < U32_MOD && k < U32_MOD && Wrap(first + j) == Wrap(first + k)
    ensures j == k
  {
  }

  /** A numbered frame goes over the picked instance and, if that fails, over one other healthy instance. */
  method Offer(ps: PacketSplitter, pool: TunnelPool, first: nat, later: seq<bool>, f: Frame,
               works: TunnelConn -> bool, again: TunnelConn -> bool, now: int) returns (ghost taker: Option<TunnelConn>)
    requires pool.Valid() && |later| == |ps.instances| && first < |ps.instances|
    modifies pool`roundRobin, pool.Everything()
    ensures pool.Valid()
    ensures forall tc :: tc in pool.Everything() ==> tc.accepted == old(tc.accepted) + if taker == Some(tc) then [f] else []
  {
    var id := ps.instances[first].id;
    assert forall tc :: tc in pool.Everything() && tc !in pool.Of(id) ==> tc.inst != id;
    var ok;
    ok, taker := pool.SendFrame(id, f, works, now);
    if ok {
      return;
    }
    var second := ps.PickInstanceExcluding(id, later);
    if second.Some? {
      ok, taker := pool.SendFrame(ps.instances[second.value].id, f, again, now);
    }
  }

  /** One chunk: pick an instance, number the frame, and offer it. */
  method SendOver(ps: PacketSplitter, pool: TunnelPool, chunk: Bytes, healthy: seq<bool>, later: seq<bool>,
                  works: TunnelConn -> bool, again: TunnelConn -> bool, now: int) returns (sent: bool, ghost taker: Option<TunnelConn>)
    requires ps.Valid() && pool.Valid() && |healthy| == |later| == |ps.instances|
    modifies ps`txSeq, ps`frames, ps`current, ps`counter, pool`roundRobin, pool.Everything()
    ensures ps.Valid() && pool.Valid()
    ensures var f := Frame(ps.connID, Wrap(|old(ps.frames)|), FLAG_DATA, chunk);
            if sent then
              ps.frames == old(ps.frames) + [f]
              && forall tc :: tc in pool.Everything() ==> tc.accepted == old(tc.accepted) + if taker == Some(tc) then [f] else []
            else
              ps.frames == old(ps.frames) && forall tc :: tc in pool.Everything() ==> tc.accepted == old(tc.accepted)
  {
    var via := ps.SendChunk(chunk, healthy);
    if via.None? {
      return false, None;
    }
    taker := Offer(ps, pool, via.value, later, ps.frames[|ps.frames| - 1], works, again, now);
    sent := true;
  }

  /**
   The relay over the pool, for any health, any socket results and any clock: every frame is numbered once, and
   each pooled connection has taken exactly the frames that `takers` assigns to it, in order and nothing else; so
   every frame is taken by at most one connection, once.
   */
  method RelayOverPool(ps: PacketSplitter, pool: TunnelPool, input: seq<Bytes>, healthy: seq<seq<bool>>, later: seq<seq<bool>>,
                       works: nat -> TunnelConn -> bool, again: nat -> TunnelConn -> bool, clock: nat -> int)
    returns (sent: nat, ghost takers: seq<Option<TunnelConn>>)
    requires ps.Valid() && pool.Valid() && |healthy| == |later| == |input|
    requires forall i :: 0 <= i < |input| ==> |healthy[i]| == |later[i]| == |ps.instances|
    modifies ps`txSeq, ps`frames, ps`current, ps`counter, pool`roundRobin, pool.Everything()
    ensures ps.Valid() && pool.Valid() && |takers| == sent <= |input|
    ensures ps.frames == old(ps.frames) + Numbered(ps.connID, |old(ps.frames)|, input[..sent])
    ensures forall tc :: tc in pool.Everything() ==>
      tc.accepted == old(tc.accepted) + Taken(Numbered(ps.connID, |old(ps.frames)|, input[..sent]), takers, tc)
  {
    sent, takers := 0, [];
    ghost var first := |ps.frames|;
    while sent < |input|
      invariant ps.Valid() && pool.Valid() && |takers| == sent <= |input|
      invariant ps.frames == old(ps.frames) + Numbered(ps.connID, first, input[..sent])
      invariant forall tc :: tc in pool.Everything() ==>
        tc.accepted == old(tc.accepted) + Taken(Numbered(ps.connID, first, input[..sent]), takers, tc)
    {
      AppendChunk(ps.connID, first, input, sent);
      ghost var frames, f := Numbered(ps.connID, first, input[..sent]), Frame(ps.connID, Wrap(first + sent), FLAG_DATA, input[sent]);
      ghost var taker;
      var more;
      more, taker := SendOver(ps, pool, input[sent], healthy[sent], later[sent], works(sent), again(sent), clock(sent));
      if !more {
        return;
      }
      forall tc | tc in pool.Everything()
        ensures tc.accepted == old(tc.accepted) + Taken(frames + [f], takers + [taker], tc)
      {
        TakenSnoc(frames, takers, f, taker, tc);
      }
      sent, takers := sent + 1, takers + [taker];
    }
  }
}
