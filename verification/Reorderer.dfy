/** The reorder buffer as the object that the tunnel code updates in place. */
module ReordererImpl {
  import opened Basics
  import opened Reorder
  import opened ReorderGaps

  class Reorderer {
    var nextSeq: u32
    var buffer: map<u32, Bytes>
    var waitingSince: Timer

    /** The calls made on this object so far; the fields are what `Reorder.Run` computes from them.  `owner` tells objects apart. */
    ghost const start: u32
    ghost const owner: nat
    ghost var hist: seq<Call>

    ghost function View(): State
      reads this
    {
      State(nextSeq, buffer, waitingSince)
    }

    ghost predicate Valid()
      reads this
    {
      Run(start, hist).state == View()
    }

    constructor (startSeq: u32, ghost owner: nat)
      ensures Valid() && start == startSeq && this.owner == owner && hist == [] && View() == Init(startSeq)
    {
      nextSeq, buffer, waitingSince := startSeq, map[], Idle;
      start, this.owner, hist := startSeq, owner, [];
    }

    method Insert(num: u32, data: Bytes)
      requires Valid()
      modifies this
      ensures Valid() && hist == old(hist) + [Ins(num, data)]
      ensures View() == Reorder.Insert(old(View()), num, data)
    {
      ghost var before := hist;
      hist := hist + [Ins(num, data)];
      RunSnoc(start, before, Ins(num, data));
      if num < nextSeq {
        return;
      }
      buffer := buffer[num := data];
    }

    /** Scans the buffer's keys in any order for the smallest. */
    method SkipToLowest()
      modifies this`nextSeq
      ensures View() == Reorder.SkipToLowest(old(View()))
    {
      var minSeq, found := nextSeq, false;
      var keys := buffer.Keys;
      while keys != {}
        invariant keys <= buffer.Keys
        invariant found ==> minSeq in buffer
        invariant found <==> keys != buffer.Keys
        invariant found ==> forall k :: k in buffer && k !in keys ==> minSeq <= k
        decreases |keys|
      {
        var num :| num in keys;
        if !found || num < minSeq {
          minSeq, found := num, true;
        }
        keys := keys - {num};
      }
      if found && minSeq > nextSeq {
        nextSeq := minSeq;
      }
    }

    method Next(now: int) returns (data: Bytes)
      requires Valid()
      modifies this
      ensures Valid() && hist == old(hist) + [Nxt(now)]
      ensures View() == Reorder.Next(old(View()), now).state
      ensures data == Value(Reorder.Next(old(View()), now).entry)
    {
      ghost var before := hist;
      hist := hist + [Nxt(now)];
      RunSnoc(start, before, Nxt(now));
      if nextSeq in buffer {
        data := buffer[nextSeq];
        buffer := buffer - {nextSeq};
        nextSeq := Inc(nextSeq);
        waitingSince := Idle;
        return;
      }
      if |buffer| == 0 {
        waitingSince := Idle;
        return [];
      }
      if waitingSince.Idle? {
        waitingSince := Since(now);
        return [];
      }
      if now - waitingSince.at < GAP_TIMEOUT {
        return [];
      }
      SkipToLowest();
      waitingSince := Idle;
      if nextSeq in buffer {
        data := buffer[nextSeq];
        buffer := buffer - {nextSeq};
        nextSeq := Inc(nextSeq);
        return;
      }
      return [];
    }

    /** The loop its users run: call `Next` until it returns nil and collect what it returned. */
    method DrainAll(clock: nat -> int) returns (chunks: seq<Bytes>)
      requires Valid()
      modifies this
      ensures Valid()
      ensures var d := Drain(old(View()), clock, 0);
              && View() == d.state
              && hist == old(hist) + NextCalls(clock, 0, d.calls)
              && chunks == Chunks(d.log)
    {
      chunks := [];
      var k: nat := 0;
      ghost var s0, h0 := View(), hist;
      while true
        invariant Valid()
        invariant Remains(s0, h0, View(), hist, clock, k, chunks)
        decreases buffer.Keys
      {
        RemainsStep(s0, h0, View(), hist, clock, k, chunks);
        var data := Next(clock(k));
        k := k + 1;
        if data == [] {
          break;
        }
        chunks := chunks + [data];
      }
    }
  }

  /** The chunks a drain hands on: the payloads consumed, except the empty one that stops it. */
  ghost function Chunks(log: seq<Entry>): seq<Bytes> {
    if log == [] then []
    else
      var last := log[|log| - 1].data;
      Chunks(log[..|log| - 1]) + if last == [] then [] else [last]
  }

  lemma {:induction false} ChunksConcat(a: seq<Entry>, b: seq<Entry>)
    ensures Chunks(a + b) == Chunks(a) + Chunks(b)
    decreases |b|
  {
    if b == [] {
      assert a + b == a;
    } else {
      var b' := b[..|b| - 1];
      ChunksConcat(a, b');
      assert (a + b)[..|a + b| - 1] == a + b';
    }
  }

  /** After `k` calls that returned `chunks`, the rest of the drain from `s0` is the drain from `s`. */
  ghost predicate Remains(s0: State, h0: seq<Call>, s: State, h: seq<Call>, clock: nat -> int, k: nat, chunks: seq<Bytes>) {
    var d, r := Drain(s0, clock, 0), Drain(s, clock, k);
    && d.state == r.state
    && d.calls == k + r.calls
    && Chunks(d.log) == chunks + Chunks(r.log)
    && h == h0 + NextCalls(clock, 0, k)
  }

  lemma {:induction false} RemainsStep(s0: State, h0: seq<Call>, s: State, h: seq<Call>, clock: nat -> int, k: nat, chunks: seq<Bytes>)
    requires Remains(s0, h0, s, h, clock, k, chunks)
    ensures var n := Reorder.Next(s, clock(k));
            var d := Drain(s0, clock, 0);
            var h' := h + [Nxt(clock(k))];
            if Value(n.entry) == [] then
              d.state == n.state && h' == h0 + NextCalls(clock, 0, d.calls) && Chunks(d.log) == chunks
            else
              n.state.buffer.Keys < s.buffer.Keys
              && Remains(s0, h0, n.state, h', clock, k + 1, chunks + [Value(n.entry)])
  {
    var n := Reorder.Next(s, clock(k));
    var r := Drain(s, clock, k);
    assert NextCalls(clock, 0, k) + [Nxt(clock(k))] == NextCalls(clock, 0, k + 1);
    if Value(n.entry) != [] {
      assert n.entry.value.num in s.buffer && n.entry.value.num !in n.state.buffer;
      var rest := Drain(n.state, clock, k + 1);
      ChunksConcat([n.entry.value], rest.log);
      assert Chunks([n.entry.value]) == [Value(n.entry)];
      assert chunks + ([Value(n.entry)] + Chunks(rest.log)) == (chunks + [Value(n.entry)]) + Chunks(rest.log);
    } else {
      assert Chunks(r.log) == [];
      assert chunks + [] == chunks;
    }
  }
}
