/** The per-connection balancer's weighted round-robin, as the object that is updated on every pick. */
module Balancer {
  import opened Basics
  import opened Modular
  import opened Scheduler

  method ComputeWeights(insts: seq<Instance>) returns (ws: seq<nat>)
    ensures ws == BalancerWeights(insts)
  {
    var maxPing: int64 := 1;
    for i := 0 to |insts|
      invariant maxPing == MaxPing(insts[..i])
    {
      assert insts[..i + 1][..i] == insts[..i];
      if insts[i].ping > maxPing {
        maxPing := insts[i].ping;
      }
    }
    assert insts[..|insts|] == insts;
    ws := [];
    for i := 0 to |insts|
      invariant ws == BalancerWeights(insts)[..i]
    {
      var ping: int64 := insts[i].ping;
      if ping <= 0 {
        ping := MAX_INT64 / 2;
      }
      var w := maxPing / ping;
      if w < 1 {
        w := 1;
      }
      ws := ws + [w];
    }
  }

  class WeightedRoundRobin {
    var current: nat
    var counter: nat

    constructor ()
      ensures current == 0 && counter == 0
    {
      current, counter := 0, 0;
    }

    method Pick(insts: seq<Instance>) returns (index: Option<nat>)
      modifies this
      ensures var p := BalancerPick(BalancerWeights(insts), Cursor(old(current), old(counter)));
              index == p.index && Cursor(current, counter) == p.cursor
    {
      var n := |insts|;
      if n == 0 {
        return None;
      }
      if n == 1 {
        return Some(0);
      }
      var ws := ComputeWeights(insts);
      index := Some(0);
      ghost var all := BalancerAttempts(ws, Cursor(current, counter), 2 * n);
      for attempts := 0 to 2 * n
        invariant all == BalancerAttempts(ws, Cursor(current, counter), 2 * n - attempts)
      {
        var idx := Mod(current, n);
        if counter < ws[idx] {
          counter := counter + 1;
          return Some(idx);
        }
        counter := 0;
        current := current + 1;
      }
    }
  }
}
