/**
 The client's pool of tunnel connections: sending with failover, and the periodic refresh that removes dead
 and stale connections and dials new ones.  Whether a socket write or a dial succeeds is an input.
 */
module Pool {
  import opened Basics
  import opened Modular
  import opened Lists
  import opened Failover
  import opened Codec
  import opened Scheduler

  const CONNS_PER_INSTANCE: nat := 8

  /** Fifteen seconds, in milliseconds. */
  const STALE_THRESHOLD: int := 15_000

  /** What happened on a connection: it was dialled, a frame was sent, a frame came back. */
  datatype Use = Opened(at: int) | Wrote(at: int) | Heard(at: int)

  /** When something last came back, or when the connection was dialled. */
  function LastHeard(uses: seq<Use>): int {
    if uses == [] then 0
    else if uses[|uses| - 1].Wrote? then LastHeard(uses[..|uses| - 1])
    else uses[|uses| - 1].at
  }

  predicate EverSent(uses: seq<Use>) {
    exists i :: 0 <= i < |uses| && uses[i].Wrote?
  }

  lemma {:induction false} OneMoreUse(uses: seq<Use>, u: Use)
    ensures LastHeard(uses + [u]) == if u.Wrote? then LastHeard(uses) else u.at
    ensures EverSent(uses + [u]) <==> EverSent(uses) || u.Wrote?
  {
    var all := uses + [u];
    assert all[..|uses|] == uses && all[|uses|] == u;
    if i :| 0 <= i < |uses| && uses[i].Wrote? {
      assert all[i].Wrote?;
    }
  }

  class TunnelConn {
    const inst: nat
    var closed: bool
    var lastRead: int
    var lastWrite: int
    var accepted: seq<Frame>    // the frames its socket took
    ghost var uses: seq<Use>

    /** The two times are those of the connection's history. */
    ghost predicate Sound()
      reads this`lastRead, this`lastWrite, this`uses
    {
      lastRead == LastHeard(uses) && (lastWrite > 0 <==> EverSent(uses))
    }

    constructor (inst: nat, now: int)
      ensures this.inst == inst && !closed && lastRead == now && lastWrite == 0 && accepted == []
      ensures uses == [Opened(now)] && Sound()
    {
      this.inst, closed, lastRead, lastWrite, accepted := inst, false, now, 0, [];
      uses := [Opened(now)];
    }

    /** The read loop got a frame. */
    method FrameRead(now: int)
      modifies this`lastRead, this`uses
      ensures lastRead == now && uses == old(uses) + [Heard(now)] && (old(Sound()) ==> Sound())
    {
      OneMoreUse(uses, Heard(now));
      lastRead, uses := now, uses + [Heard(now)];
    }

    method WriteFrame(f: Frame, works: bool, now: int) returns (ok: bool)
      modifies this`lastWrite, this`accepted, this`uses
      ensures uses == if ok then old(uses) + [Wrote(now)] else old(uses)
      ensures now > 0 && old(Sound()) ==> Sound()
      ensures ok <==> !closed && Encodable(f) && works
      ensures accepted == if ok then old(accepted) + [f] else old(accepted)
      ensures lastWrite == if ok then now else old(lastWrite)
    {
      if closed || !Encodable(f) || !works {
        return false;
      }
      OneMoreUse(uses, Wrote(now));
      lastWrite, uses := now, uses + [Wrote(now)];
      accepted := accepted + [f];
      return true;
    }

    /** One way: nothing reopens a connection. */
    method Close()
      modifies this`closed
      ensures closed
    {
      closed := true;
    }

    /** Something was sent, but nothing has come back for longer than the threshold. */
    predicate Stale(now: int)
      reads this`lastRead, this`lastWrite
    {
      lastWrite > 0 && now - lastRead > STALE_THRESHOLD
    }
  }

  /** Nothing came back for more than fifteen seconds although something was sent; an idle connection is not stale. */
  ghost predicate HalfDead(uses: seq<Use>, now: int) {
    EverSent(uses) && now - LastHeard(uses) > 15_000
  }

  lemma {:induction false} StaleIff(tc: TunnelConn, now: int)
    requires tc.Sound()
    ensures tc.Stale(now) <==> HalfDead(tc.uses, now)
  {
  }

  // ------------------------------------------------------------------ list operations

  method CloseEach(cs: seq<TunnelConn>)
    modifies (set tc | tc in cs)`closed
    ensures forall tc :: tc in cs ==> tc.closed
  {
    for i := 0 to |cs|
      invariant forall j :: 0 <= j < i ==> cs[j].closed
    {
      cs[i].Close();
    }
  }

  /** The open connections that are not stale, in order. */
  function Keep(cs: seq<TunnelConn>, now: int): (alive: seq<TunnelConn>)
    reads (set tc | tc in cs)`closed, (set tc | tc in cs)`lastRead, (set tc | tc in cs)`lastWrite
    ensures |alive| <= |cs|
    ensures forall tc :: tc in alive ==> tc in cs && !tc.closed && !tc.Stale(now)
    ensures forall tc :: tc in cs && !tc.closed && !tc.Stale(now) ==> tc in alive
  {
    if cs == [] then []
    else
      var last := cs[|cs| - 1];
      Keep(cs[..|cs| - 1], now) + if last.closed || last.Stale(now) then [] else [last]
  }

  /** Close what is not kept; what is kept stays open. */
  method Prune(cs: seq<TunnelConn>, now: int) returns (alive: seq<TunnelConn>)
    requires Distinct(cs)
    modifies (set tc | tc in cs)`closed
    ensures alive == old(Keep(cs, now))
    ensures forall tc :: tc in cs ==> (tc.closed <==> tc !in alive)
  {
    alive := [];
    for i := 0 to |cs|
      invariant alive == old(Keep(cs[..i], now))
      invariant forall j :: 0 <= j < i ==> (cs[j].closed <==> cs[j] !in alive)
      invariant forall j :: i <= j < |cs| ==> cs[j].closed == old(cs[j].closed)
    {
      var tc := cs[i];
      assert cs[..i + 1][..i] == cs[..i];
      if tc.closed || tc.Stale(now) {
        tc.Close();
      } else {
        alive := alive + [tc];
      }
    }
    assert cs[..|cs|] == cs;
  }

  lemma {:induction false} KeepDistinct(cs: seq<TunnelConn>, now: int)
    requires Distinct(cs)
    ensures Distinct(Keep(cs, now))
  {
    if cs != [] {
      var before, last := cs[..|cs| - 1], cs[|cs| - 1];
      KeepDistinct(before, now);
      assert last !in before;
    }
  }

  /** Dial until the list is full or a dial fails; the dial made while the list holds n connections succeeds if `dial(n)`. */
  method Replenish(inst: nat, cs: seq<TunnelConn>, now: int, dial: nat -> bool) returns (grown: seq<TunnelConn>)
    requires Distinct(cs)
    ensures cs <= grown && Distinct(grown) && |grown| <= (if |cs| > CONNS_PER_INSTANCE then |cs| else CONNS_PER_INSTANCE)
    ensures forall i :: |cs| <= i < |grown| ==>
      fresh(grown[i]) && grown[i].inst == inst && !grown[i].closed && grown[i].lastWrite == 0 && grown[i].lastRead == now
    ensures forall i :: |cs| <= i < |grown| ==> grown[i].Sound()
    ensures forall n :: |cs| <= n < |grown| ==> dial(n)
    ensures |grown| < CONNS_PER_INSTANCE ==> !dial(|grown|)
  {
    grown := cs;
    while |grown| < CONNS_PER_INSTANCE && dial(|grown|)
      invariant cs <= grown && Distinct(grown) && forall n :: |cs| <= n < |grown| ==> dial(n)
      invariant |grown| <= (if |cs| > CONNS_PER_INSTANCE then |cs| else CONNS_PER_INSTANCE)
      invariant forall i :: |cs| <= i < |grown| ==>
        fresh(grown[i]) && grown[i].inst == inst && !grown[i].closed && grown[i].lastWrite == 0 && grown[i].lastRead == now
      invariant forall i :: |cs| <= i < |grown| ==> grown[i].Sound()
      decreases CONNS_PER_INSTANCE - |grown|
    {
      var tc := new TunnelConn(inst, now);
      grown := grown + [tc];
    }
  }

  // ------------------------------------------------------------------ the pool

  /** Positions in rotation order whose connection is open and whose socket takes the frame. */
  predicate Takes(tc: TunnelConn, works: TunnelConn -> bool, f: Frame)
    reads tc
  {
    !tc.closed && Encodable(f) && works(tc)
  }

  /** As many consecutive sends as there are connections start with each of them exactly once. */
  lemma {:induction false} EachIsFirstOnce(cs: seq<TunnelConn>, idx: nat, tc: TunnelConn) returns (k: nat)
    requires Distinct(cs) && tc in cs
    ensures k < |cs| && FirstTried(cs, idx + k) == tc
    ensures forall m: nat :: m < |cs| && PositionUsed(idx, m, |cs|) == PositionUsed(idx, k, |cs|) ==> m == k
  {
    var i :| 0 <= i < |cs| && cs[i] == tc;
    k := RotationMeets(idx, i, |cs|);
    assert Mod(Mod(idx + k, |cs|) + 0, |cs|) == Mod(idx + k, |cs|);
    forall m: nat | m < |cs| && PositionUsed(idx, m, |cs|) == PositionUsed(idx, k, |cs|) ensures m == k {
      RotationOnce(idx, m, k, |cs|);
    }
  }

  function FirstTried(cs: seq<TunnelConn>, idx: nat): TunnelConn
    requires cs != []
  {
    Rotated(cs, idx)[0]
  }

  /** One attempt: a connection that cannot take the frame ends up closed. */
  method TryFrame(tc: TunnelConn, f: Frame, works: TunnelConn -> bool, now: int) returns (ok: bool)
    modifies tc
    ensures ok == old(Takes(tc, works, f)) && tc.closed == !ok
    ensures tc.accepted == if ok then old(tc.accepted) + [f] else old(tc.accepted)
    ensures now > 0 && old(tc.Sound()) ==> tc.Sound()
  {
    if tc.closed {
      return false;
    }
    ok := tc.WriteFrame(f, works(tc), now);
    if !ok {
      tc.Close();
    }
  }

  /** The number of connections passed over before the first one that takes the frame. */
  ghost function PassedOver(order: seq<TunnelConn>, works: TunnelConn -> bool, f: Frame): (j: nat)
    reads set tc | tc in order
    ensures j <= |order| && (j < |order| ==> Takes(order[j], works, f))
    ensures forall d :: 0 <= d < j ==> !Takes(order[d], works, f)
  {
    if order == [] || Takes(order[0], works, f) then 0 else PassedOver(order[1..], works, f) + 1
  }

  lemma {:induction false} RotatedDistinct(cs: seq<TunnelConn>, idx: nat)
    requires Distinct(cs)
    ensures Distinct(Rotated(cs, idx)) && forall d :: 0 <= d < |cs| ==> Rotated(cs, idx)[d] in cs
    ensures forall tc :: tc in cs ==> tc in Rotated(cs, idx)
  {
    var order, n := Rotated(cs, idx), |cs|;
    forall d, e | 0 <= d < e < n ensures order[d] != order[e] {
      if Mod(Mod(idx, n) + d, n) == Mod(Mod(idx, n) + e, n) {
        RotationOnce(Mod(idx, n), d, e, n);
      }
    }
    forall tc | tc in cs ensures tc in order {
      var i :| 0 <= i < n && cs[i] == tc;
      var d := RotationMeets(Mod(idx, n), i, n);
      assert order[d] == tc;
    }
    forall d | 0 <= d < n ensures order[d] in cs {
      assert order[d] == cs[Mod(Mod(idx, n) + d, n)];
    }
  }

  /** `taker` is the connection that took the frame. */
  method TryInTurn(cs: seq<TunnelConn>, start: nat, f: Frame, works: TunnelConn -> bool, now: int, ghost order: seq<TunnelConn>)
    returns (ok: bool, ghost taker: Option<TunnelConn>)
    requires |order| == |cs| && Distinct(order)
    requires forall i :: 0 <= i < |cs| ==> order[i] == cs[Mod(start + i, |cs|)]
    modifies set tc | tc in cs
    ensures var j := old(PassedOver(order, works, f));
            && (ok <==> j < |order|)
            && (forall d :: 0 <= d < j ==> order[d].closed && order[d].accepted == old(order[d].accepted))
            && (ok ==> !order[j].closed && order[j].accepted == old(order[j].accepted) + [f])
            && (forall d :: j < d < |order| ==> unchanged(order[d]))
            && taker == if ok then Some(order[j]) else None
    ensures !Encodable(f) ==> !ok && forall d :: 0 <= d < |order| ==> order[d].closed
    ensures now > 0 ==> forall d :: 0 <= d < |order| && old(order[d].Sound()) ==> order[d].Sound()
  {
    ghost var j := PassedOver(order, works, f);
    var n := |cs|;
    for i := 0 to n
      invariant i <= j
      invariant forall d :: 0 <= d < i ==> order[d].closed && order[d].accepted == old(order[d].accepted)
      invariant forall d :: i <= d < n ==> unchanged(order[d])
      invariant now > 0 ==> forall d :: 0 <= d < i && old(order[d].Sound()) ==> order[d].Sound()
    {
      var tc := cs[Mod(start + i, n)];
      assert tc == order[i];
      ok := TryFrame(tc, f, works, now);
      if ok {
        return true, Some(tc);
      }
    }
    return false, None;
  }

  lemma {:induction false} PlaceOf(order: seq<TunnelConn>, tc: TunnelConn) returns (d: nat)
    requires tc in order
    ensures d < |order| && order[d] == tc
  {
    d :| 0 <= d < |order| && order[d] == tc;
  }

  /** The same, told for the connections as they are listed. */
  method TryListed(cs: seq<TunnelConn>, start: nat, f: Frame, works: TunnelConn -> bool, now: int, ghost order: seq<TunnelConn>)
    returns (ok: bool, ghost taker: Option<TunnelConn>)
    requires |order| == |cs| && Distinct(order) && forall tc :: tc in cs ==> tc in order
    requires forall i :: 0 <= i < |cs| ==> order[i] == cs[Mod(start + i, |cs|)]
    modifies set tc | tc in cs
    ensures var j := old(PassedOver(order, works, f));
            && (ok <==> j < |order|)
            && (forall d :: 0 <= d < j ==> order[d].closed && order[d].accepted == old(order[d].accepted))
            && (ok ==> !order[j].closed && order[j].accepted == old(order[j].accepted) + [f])
            && (forall d :: j < d < |order| ==> unchanged(order[d]))
            && taker == if ok then Some(order[j]) else None
    ensures forall tc :: tc in cs ==> tc.accepted == old(tc.accepted) + if taker == Some(tc) then [f] else []
    ensures !Encodable(f) ==> !ok && forall d :: 0 <= d < |order| ==> order[d].closed
    ensures now > 0 ==> forall tc :: tc in cs && old(tc.Sound()) ==> tc.Sound()
  {
    ok, taker := TryInTurn(cs, start, f, works, now, order);
    forall tc | tc in cs ensures tc.accepted == old(tc.accepted) + if taker == Some(tc) then [f] else [] {
      var d := PlaceOf(order, tc);
    }
    forall tc | tc in cs ensures now > 0 && old(tc.Sound()) ==> tc.Sound() {
      var d := PlaceOf(order, tc);
    }
  }

  method TryFrom(cs: seq<TunnelConn>, idx: nat, f: Frame, works: TunnelConn -> bool, now: int)
    returns (ok: bool, ghost taker: Option<TunnelConn>)
    requires cs != [] && Distinct(cs)
    modifies set tc | tc in cs
    ensures var order := Rotated(cs, idx);
            var j := old(PassedOver(order, works, f));
            && (ok <==> j < |order|)
            && (forall d :: 0 <= d < j ==> order[d].closed && order[d].accepted == old(order[d].accepted))
            && (ok ==> !order[j].closed && order[j].accepted == old(order[j].accepted) + [f])
            && (forall d :: j < d < |order| ==> unchanged(order[d]))
            && taker == if ok then Some(order[j]) else None
    ensures forall tc :: tc in cs ==> tc.accepted == old(tc.accepted) + if taker == Some(tc) then [f] else []
    ensures !Encodable(f) ==> !ok && forall d :: 0 <= d < |cs| ==> Rotated(cs, idx)[d].closed
    ensures now > 0 ==> forall tc :: tc in cs && old(tc.Sound()) ==> tc.Sound()
  {
    RotatedDistinct(cs, idx);
    ok, taker := TryListed(cs, Mod(idx, |cs|), f, works, now, Rotated(cs, idx));
  }

  /** What the first phase makes of the entry `cs` of an instance: `kept` stays; `shut` were closed before. */
  ghost predicate Treated(kept: seq<TunnelConn>, cs: seq<TunnelConn>, shut: set<TunnelConn>, healthy: bool, now: int)
    reads set tc | tc in cs
  {
    forall tc :: tc in cs ==>
      && (tc in kept <==> healthy && tc !in shut && !tc.Stale(now))
      && (tc.closed <==> tc !in kept)
  }

  class TunnelPool {
    var conns: map<nat, seq<TunnelConn>>
    var roundRobin: nat

    /** Every entry is non-empty, holds at most eight connections of its own instance, and none twice. */
    ghost predicate Valid()
      reads this
    {
      forall id :: id in conns ==> Entry(id, conns[id])
    }

    ghost predicate Entry(id: nat, cs: seq<TunnelConn>) {
      && 0 < |cs| <= CONNS_PER_INSTANCE && Distinct(cs)
      && forall tc :: tc in cs ==> tc.inst == id
    }

    ghost function Everything(): set<TunnelConn>
      reads this
    {
      set id, tc | id in conns && tc in conns[id] :: tc
    }

    function Of(id: nat): seq<TunnelConn>
      reads this`conns
    {
      if id in conns then conns[id] else []
    }

    constructor ()
      ensures Valid() && conns == map[] && roundRobin == 0
    {
      conns, roundRobin := map[], 0;
    }

    /**
     The connections are tried once each in rotation order.  The frame is taken by exactly one of them, the
     first that can; every open one tried before it is closed; those after it are untouched; and the send
     fails exactly when none can take it, in particular for an oversized frame, which closes them all.
     */
    method SendFrame(instID: nat, f: Frame, works: TunnelConn -> bool, now: int) returns (ok: bool, ghost taker: Option<TunnelConn>)
      requires Valid()
      modifies this`roundRobin, set tc | tc in Of(instID)
      ensures Valid() && roundRobin == old(roundRobin) + if Of(instID) == [] then 0 else 1
      ensures var order := Rotated(Of(instID), roundRobin);
              var j := old(PassedOver(order, works, f));
              && (ok <==> j < |order|)
              && (forall d :: 0 <= d < j ==> order[d].closed && order[d].accepted == old(order[d].accepted))
              && (ok ==> !order[j].closed && order[j].accepted == old(order[j].accepted) + [f])
              && (forall d :: j < d < |order| ==> unchanged(order[d]))
              && taker == if ok then Some(order[j]) else None
      ensures forall tc :: tc in Of(instID) ==> tc.accepted == old(tc.accepted) + if taker == Some(tc) then [f] else []
      ensures !Encodable(f) ==> !ok && forall d :: 0 <= d < |Of(instID)| ==> Rotated(Of(instID), roundRobin)[d].closed
      ensures now > 0 ==> forall tc :: tc in Of(instID) && old(tc.Sound()) ==> tc.Sound()
    {
      var cs := Of(instID);
      if |cs| == 0 {
        return false, None;
      }
      roundRobin := roundRobin + 1;
      ok, taker := TryFrom(cs, roundRobin, f, works, now);
    }

    method RemoveDeadEntry(id: nat, ids: set<nat>, now: int)
      requires Valid() && id in conns
      modifies this`conns, (set tc | tc in conns[id])`closed
      ensures Valid() && conns == if id in conns then old(conns)[id := conns[id]] else old(conns) - {id}
      ensures id in conns ==> id in ids && conns[id] == old(Keep(conns[id], now))
      ensures forall tc :: tc in Of(id) ==> tc in old(conns[id])
      ensures forall tc :: tc in old(conns[id]) ==> (tc in Of(id) <==> id in ids && !old(tc.closed) && !tc.Stale(now))
      ensures forall tc :: tc in old(conns[id]) ==> (tc.closed <==> tc !in Of(id))
    {
      var cs := conns[id];
      if id !in ids {
        CloseEach(cs);
        conns := conns - {id};
        return;
      }
      KeepDistinct(cs, now);
      var alive := Prune(cs, now);
      if alive == [] {
        conns := conns - {id};
      } else {
        conns := conns[id := alive];
      }
    }

    /** A connection that belongs to the pool. */
    ghost predicate Pooled(tc: TunnelConn)
      reads this`conns
    {
      tc.inst in conns && tc in conns[tc.inst]
    }

    /**
     First phase: exactly the open, non-stale connections of healthy instances stay; exactly the others are
     closed.
     */
    method RemoveDead(ids: set<nat>, now: int)
      requires Valid()
      modifies this`conns, Everything()`closed
      ensures Valid() && conns.Keys <= old(conns.Keys) * ids
      ensures forall tc :: tc in old(Everything()) ==> (Pooled(tc) <==> tc.inst in ids && !old(tc.closed) && !tc.Stale(now))
      ensures forall tc :: tc in old(Everything()) ==> (tc.closed <==> !Pooled(tc))
      ensures Everything() <= old(Everything())
    {
      ghost var was := conns;
      PruneAll(ids, now, set tc | tc in Everything() && tc.closed);
      forall tc | tc in old(Everything()) ensures tc.inst in was && tc in was[tc.inst] {
      }
    }

    /** The entries of `was` outside `todo` have been treated; those in `todo` are as they were. */
    ghost predicate PrunedUpTo(was: map<nat, seq<TunnelConn>>, todo: set<nat>, shut: set<TunnelConn>, ids: set<nat>, now: int)
      reads this`conns, set id, tc | id in was && tc in was[id] :: tc
    {
      && todo <= conns.Keys <= was.Keys && conns.Keys <= todo + ids
      && (forall id :: id in was ==> Entry(id, was[id]))
      && (forall id :: id in todo ==> conns[id] == was[id])
      && (forall id, tc :: id in conns && tc in conns[id] ==> tc in was[id])
      && (forall id, tc :: id in todo && tc in was[id] ==> (tc in shut <==> tc.closed))
      && (forall id :: id in was && id !in todo ==> Treated(Of(id), was[id], shut, id in ids, now))
    }

    method PruneNext(id: nat, ids: set<nat>, now: int, ghost was: map<nat, seq<TunnelConn>>, ghost todo: set<nat>, ghost shut: set<TunnelConn>)
      requires Valid() && id in todo && PrunedUpTo(was, todo, shut, ids, now)
      modifies this`conns, (set tc | tc in Of(id))`closed
      ensures Valid() && PrunedUpTo(was, todo - {id}, shut, ids, now)
    {
      ghost var before := conns;
      RemoveDeadEntry(id, ids, now);
      assert Treated(Of(id), was[id], shut, id in ids, now);
      forall x | x in was && x !in todo ensures Treated(Of(x), was[x], shut, x in ids, now) {
        assert forall tc :: tc in was[x] ==> tc.inst == x && tc !in was[id];
        assert Of(x) == if x in before then before[x] else [];
      }
      forall x, tc | x in todo && x != id && tc in was[x] ensures tc in shut <==> tc.closed {
        assert tc.inst == x && tc !in was[id];
      }
    }

    /** The same, entry by entry. */
    method PruneAll(ids: set<nat>, now: int, ghost shut: set<TunnelConn>)
      requires Valid() && forall tc :: tc in Everything() ==> (tc in shut <==> tc.closed)
      modifies this`conns, Everything()`closed
      ensures Valid() && conns.Keys <= old(conns.Keys) * ids
      ensures forall id, tc :: id in conns && tc in conns[id] ==> tc in old(conns)[id]
      ensures forall id :: id in old(conns) ==> Treated(Of(id), old(conns)[id], shut, id in ids, now)
    {
      ghost var was := conns;
      var todo := conns.Keys;
      while todo != {}
        invariant Valid() && PrunedUpTo(was, todo, shut, ids, now)
        decreases |todo|
      {
        var id :| id in todo;
        PruneNext(id, ids, now, was, todo, shut);
        todo := todo - {id};
      }
    }

    /** Second phase, for one instance: dial what is missing. */
    method ReplenishEntry(id: nat, now: int, dial: nat -> bool)
      requires Valid()
      modifies this`conns
      ensures Valid() && conns == if id in conns then old(conns)[id := conns[id]] else old(conns)
      ensures old(Of(id)) <= Of(id)
      ensures forall i :: |old(Of(id))| <= i < |Of(id)| ==> fresh(Of(id)[i]) && !Of(id)[i].closed && !Of(id)[i].Stale(now) && Of(id)[i].Sound()
      ensures forall n :: |old(Of(id))| <= n < |Of(id)| ==> dial(n)
      ensures |Of(id)| == CONNS_PER_INSTANCE || !dial(|Of(id)|)
    {
      var grown := Replenish(id, Of(id), now, dial);
      if grown != [] {
        conns := conns[id := grown];
      }
    }

    ghost predicate Usable(tc: TunnelConn, ids: set<nat>, now: int)
      reads tc
    {
      tc.inst in ids && !tc.closed && !tc.Stale(now)
    }

    /** The entry is full, or the dial that was made with the connections it holds failed. */
    ghost predicate Filled(id: nat, dial: (nat, nat) -> bool)
      reads this
    {
      |Of(id)| == CONNS_PER_INSTANCE || !dial(id, |Of(id)|)
    }

    method ReplenishAll(healthy: seq<Instance>, now: int, dial: (nat, nat) -> bool, ghost ids: set<nat>)
      requires Valid() && forall i :: 0 <= i < |healthy| ==> healthy[i].id in ids
      requires forall tc :: tc in Everything() ==> Usable(tc, ids, now)
      modifies this`conns
      ensures Valid() && forall tc :: tc in Everything() ==> Usable(tc, ids, now)
      ensures forall tc :: tc in old(Everything()) ==> Pooled(tc)
      ensures forall tc :: tc in Everything() ==> tc in old(Everything()) || tc.Sound()
      ensures forall i :: 0 <= i < |healthy| && !healthy[i].ssh ==>
        Filled(healthy[i].id, dial)
    {
      ghost var all := Everything();
      for k := 0 to |healthy|
        invariant Valid() && forall id, tc :: id in conns && tc in conns[id] ==> Usable(tc, ids, now)
        invariant forall tc :: tc in all ==> Pooled(tc)
        invariant forall id, tc :: id in conns && tc in conns[id] ==> tc in all || tc.Sound()
        invariant forall i :: 0 <= i < k && !healthy[i].ssh ==>
          Filled(healthy[i].id, dial)
      {
        if healthy[k].ssh {
          continue;
        }
        var id := healthy[k].id;
        ghost var was := Of(id);
        ReplenishEntry(id, now, (n: nat) => dial(id, n));
        forall tc | tc in Of(id) ensures Usable(tc, ids, now) && (tc in all || tc.Sound()) {
          var i :| 0 <= i < |Of(id)| && Of(id)[i] == tc;
          assert i < |was| ==> tc in was;
        }
      }
    }

    /**
     A refresh: afterwards every pooled connection is open, not stale and owned by a healthy instance; every
     connection that was good stays and every one that left is closed; and a healthy instance that is not in
     ssh mode has exactly eight connections unless the last dial made for it failed.  Nothing is reopened.  By the
     connections' histories: exactly the open ones of healthy instances that are not half-dead stay.
     */
    method RefreshConnections(healthy: seq<Instance>, now: int, dial: (nat, nat) -> bool)
      requires Valid()
      modifies this`conns, Everything()`closed
      ensures Valid()
      ensures forall tc :: tc in Everything() ==>
        !tc.closed && !tc.Stale(now) && exists i :: 0 <= i < |healthy| && healthy[i].id == tc.inst
      ensures forall tc :: tc in old(Everything()) ==> (tc.closed <==> !Pooled(tc)) && (old(tc.closed) ==> tc.closed)
      ensures forall tc, i :: tc in old(Everything()) && !old(tc.closed) && 0 <= i < |healthy| && healthy[i].id == tc.inst ==>
        tc.Stale(now) || Pooled(tc)
      ensures forall tc :: tc in old(Everything()) && old(tc.Sound()) ==>
        tc.uses == old(tc.uses) && tc.Sound()
        && (Pooled(tc) <==> old(!tc.closed) && !HalfDead(tc.uses, now) && exists i :: 0 <= i < |healthy| && healthy[i].id == tc.inst)
      ensures forall tc :: tc in Everything() ==> tc in old(Everything()) || tc.Sound()
      ensures forall i :: 0 <= i < |healthy| && !healthy[i].ssh ==>
        Filled(healthy[i].id, dial)
    {
      var ids := set i | 0 <= i < |healthy| :: healthy[i].id;
      RemoveDead(ids, now);
      forall tc | tc in old(Everything()) && old(tc.Sound()) ensures tc.Stale(now) <==> HalfDead(tc.uses, now) {
        StaleIff(tc, now);
      }
      ReplenishAll(healthy, now, dial, ids);
    }
  }
}
