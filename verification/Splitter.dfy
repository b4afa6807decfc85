/**
 The client's packet splitter: it numbers the frames of one connection, spreads them over the instances, and
 puts the reverse frames back in order.  Instance health, pool sends, socket reads and writes are inputs.
 */
module Splitter {
  import opened Basics
  import opened Modular
  import opened Codec
  import opened Scheduler
  import opened Reorder
  import opened ReorderGaps
  import opened ReordererImpl

  /** Consecutive frames of one connection: the k-th carries number `first + k`, wrapping, and the k-th chunk. */
  function Numbered(connId: u32, first: nat, chunks: seq<Bytes>): (fs: seq<Frame>)
    ensures |fs| == |chunks|
  {
    seq(|chunks|, k requires 0 <= k < |chunks| => Frame(connId, Wrap(first + k), FLAG_DATA, chunks[k]))
  }

  /** One outcome of the reverse relay's select. */
  datatype Input =
    | Done
    | Tick(clock: nat -> int, idle: bool)
    | Incoming(frame: Frame, clock: nat -> int)

  /** The reverse frames that are inserted: data with a payload. */
  predicate CarriesData(f: Frame) {
    !IsFin(f.flags) && !IsRst(f.flags) && !IsAck(f.flags) && !IsSyn(f.flags) && f.payload != []
  }

  /** None of the four control bits is set and there is a payload; what the reverse bit says does not matter. */
  lemma {:induction false} CarriesDataIff(f: Frame)
    ensures CarriesData(f) <==> f.flags % 16 == 0 && f.payload != []
  {
    NoControlBits(f.flags);
  }

  // ------------------------------------------------------------------ the route of the chunks

  /** The health of every instance at each pick. */
  predicate Fits(ws: seq<nat>, healthy: seq<seq<bool>>) {
    Positive(ws) && forall k :: 0 <= k < |healthy| ==> |healthy[k]| == |ws|
  }

  function CursorAfter(ws: seq<nat>, c: Cursor, healthy: seq<seq<bool>>): (c': Cursor)
    requires Fits(ws, healthy) && (ws != [] ==> ValidCursor(ws, c))
    ensures ws != [] ==> ValidCursor(ws, c')
  {
    if healthy == [] then c
    else SplitterPick(ws, healthy[|healthy| - 1], CursorAfter(ws, c, healthy[..|healthy| - 1])).cursor
  }

  /** The k-th pick from `c`, the health of the instances changing from pick to pick. */
  function Pick(ws: seq<nat>, c: Cursor, healthy: seq<seq<bool>>, k: nat): Picked
    requires Fits(ws, healthy) && (ws != [] ==> ValidCursor(ws, c)) && k < |healthy|
  {
    SplitterPick(ws, healthy[k], CursorAfter(ws, c, healthy[..k]))
  }

  predicate Routed(ws: seq<nat>, c: Cursor, healthy: seq<seq<bool>>, via: seq<nat>)
    requires Fits(ws, healthy) && (ws != [] ==> ValidCursor(ws, c))
  {
    |via| <= |healthy| && forall k :: 0 <= k < |via| ==> Pick(ws, c, healthy, k).index == Some(via[k])
  }

  lemma {:induction false} CursorStep(ws: seq<nat>, c: Cursor, healthy: seq<seq<bool>>, k: nat)
    requires Fits(ws, healthy) && (ws != [] ==> ValidCursor(ws, c)) && k < |healthy|
    ensures CursorAfter(ws, c, healthy[..k + 1]) == Pick(ws, c, healthy, k).cursor
  {
    assert healthy[..k + 1][..k] == healthy[..k];
  }

  lemma {:induction false} RoutedStep(ws: seq<nat>, c: Cursor, healthy: seq<seq<bool>>, via: seq<nat>, next: nat)
    requires Fits(ws, healthy) && (ws != [] ==> ValidCursor(ws, c)) && Routed(ws, c, healthy, via) && |via| < |healthy|
    requires Pick(ws, c, healthy, |via|).index == Some(next)
    ensures Routed(ws, c, healthy, via + [next])
  {
  }

  /** Every chunk goes to a healthy instance, and the route ends only where none is healthy. */
  lemma {:induction false} RouteIsHealthy(ws: seq<nat>, c: Cursor, healthy: seq<seq<bool>>, via: seq<nat>)
    requires Fits(ws, healthy) && (ws != [] ==> ValidCursor(ws, c)) && Routed(ws, c, healthy, via)
    ensures forall k :: 0 <= k < |via| ==> via[k] < |ws| && healthy[k][via[k]]
    ensures |via| < |healthy| ==>
              (Pick(ws, c, healthy, |via|).index == None <==> forall i :: 0 <= i < |ws| ==> !healthy[|via|][i])
  {
    forall k | 0 <= k < |healthy|
      ensures Pick(ws, c, healthy, k).index == None <==> forall i :: 0 <= i < |ws| ==> !healthy[k][i]
      ensures Pick(ws, c, healthy, k).index.Some? ==>
                Pick(ws, c, healthy, k).index.value < |ws| && healthy[k][Pick(ws, c, healthy, k).index.value]
    {
      if ws != [] {
        PickIsNearestHealthy(ws, healthy[k], CursorAfter(ws, c, healthy[..k]));
      }
    }
  }

  /** While all instances are healthy, the chunks go round in turn, so every window of them is shared fairly. */
  lemma {:induction false} RouteIsFair(ws: seq<nat>, c: Cursor, healthy: seq<seq<bool>>, k: nat)
    requires Fits(ws, healthy) && ws != [] && ValidCursor(ws, c) && k <= |healthy|
    requires forall j :: 0 <= j < |healthy| ==> healthy[j] == AllHealthy(|ws|)
    ensures CursorAfter(ws, c, healthy[..k]) == After(ws, c, k)
    ensures k < |healthy| ==> Pick(ws, c, healthy, k).index == PickAt(ws, c, k)
  {
    if k > 0 {
      RouteIsFair(ws, c, healthy, k - 1);
      CursorStep(ws, c, healthy, k - 1);
      assert Pick(ws, c, healthy, k - 1) == SplitterPick(ws, AllHealthy(|ws|), After(ws, c, k - 1));
    }
  }

  // ------------------------------------------------------------------ the second attempt

  /** `pickInstanceExcluding` from position `from` on: the first healthy instance with another identifier. */
  function Excluding(insts: seq<Instance>, id: nat, healthy: seq<bool>, from: nat): (r: Option<nat>)
    requires |healthy| == |insts| && from <= |insts|
    ensures r.Some? ==> from <= r.value < |insts| && insts[r.value].id != id && healthy[r.value]
    ensures forall i :: from <= i < (if r.Some? then r.value else |insts|) ==> insts[i].id == id || !healthy[i]
    decreases |insts| - from
  {
    if from == |insts| then None
    else if insts[from].id != id && healthy[from] then Some(from)
    else Excluding(insts, id, healthy, from + 1)
  }

  /** Which instance takes a frame: the picked one, or after a failed send one other healthy instance, or none. */
  function Delivery(insts: seq<Instance>, first: nat, healthy: seq<bool>, works: nat -> bool): Option<nat>
    requires |healthy| == |insts| && first < |insts|
  {
    if works(first) then Some(first)
    else
      var second := Excluding(insts, insts[first].id, healthy, 0);
      if second.Some? && works(second.value) then second else None
  }

  /** `taken` says where the frames ended up that were first sent to `via`. */
  ghost predicate Delivered(insts: seq<Instance>, later: seq<seq<bool>>, works: nat -> nat -> bool, via: seq<nat>, taken: seq<Option<nat>>) {
    |taken| == |via| <= |later| && forall k :: 0 <= k < |via| ==>
      |later[k]| == |insts| && via[k] < |insts| && taken[k] == Delivery(insts, via[k], later[k], works(k))
  }

  lemma {:induction false} DeliveredStep(insts: seq<Instance>, later: seq<seq<bool>>, works: nat -> nat -> bool,
                                         via: seq<nat>, taken: seq<Option<nat>>, first: nat)
    requires Delivered(insts, later, works, via, taken) && |via| < |later| && |later[|via|]| == |insts| && first < |insts|
    ensures Delivered(insts, later, works, via + [first], taken + [Delivery(insts, first, later[|via|], works(|via|))])
  {
  }

  /**
   A frame is taken by at most one instance, and by none only if the picked one failed and the first other
   healthy one failed too or does not exist; a third instance is never tried.
   */
  lemma {:induction false} DeliveryIsSingle(insts: seq<Instance>, first: nat, healthy: seq<bool>, works: nat -> bool)
    requires |healthy| == |insts| && first < |insts|
    ensures var r := Delivery(insts, first, healthy, works);
            && (r.Some? ==> works(r.value) && (r.value == first || (!works(first) && insts[r.value].id != insts[first].id && healthy[r.value])))
            && (r == None <==> !works(first) && forall i :: 0 <= i < |insts| && Other(insts, first, healthy, i) ==> !works(i))
  {
    var second := Excluding(insts, insts[first].id, healthy, 0);
    if second.Some? {
      assert Other(insts, first, healthy, second.value);
    }
  }

  /** Instance `i` is the first healthy one in the list with another identifier than the picked one. */
  predicate Other(insts: seq<Instance>, first: nat, healthy: seq<bool>, i: nat)
    requires |healthy| == |insts| && first < |insts| && i < |insts|
  {
    && insts[i].id != insts[first].id && healthy[i]
    && forall j :: 0 <= j < i ==> insts[j].id == insts[first].id || !healthy[j]
  }

  /** The relay after sending the chunks `input[..|via|]`, with the cursor at `c`. */
  ghost predicate SentSoFar(ws: seq<nat>, c0: Cursor, healthy: seq<seq<bool>>, input: seq<Bytes>, connId: u32,
                            before: seq<Frame>, frames: seq<Frame>, via: seq<nat>, total: nat, c: Cursor) {
    && Fits(ws, healthy) && (ws != [] ==> ValidCursor(ws, c0)) && |healthy| == |input| && |via| <= |input|
    && Routed(ws, c0, healthy, via) && c == CursorAfter(ws, c0, healthy[..|via|])
    && frames == before + Numbered(connId, |before|, input[..|via|])
    && total == |Flatten(input[..|via|])|
  }

  lemma {:induction false} SentStep(ws: seq<nat>, c0: Cursor, healthy: seq<seq<bool>>, input: seq<Bytes>, connId: u32,
                                    before: seq<Frame>, frames: seq<Frame>, via: seq<nat>, total: nat, c: Cursor)
    requires SentSoFar(ws, c0, healthy, input, connId, before, frames, via, total, c) && |via| < |input|
    ensures var k := |via|;
            var p := SplitterPick(ws, healthy[k], c);
            && total + |input[k]| == |Flatten(input[..k + 1])|
            && p == Pick(ws, c0, healthy, k)
            && (p.index.Some? ==> SentSoFar(ws, c0, healthy, input, connId, before,
                                            frames + [Frame(connId, Wrap(|frames|), FLAG_DATA, input[k])],
                                            via + [p.index.value], total + |input[k]|, p.cursor))
  {
    AppendChunk(connId, |before|, input, |via|);
    CursorStep(ws, c0, healthy, |via|);
    var p := Pick(ws, c0, healthy, |via|);
    if p.index.Some? {
      RoutedStep(ws, c0, healthy, via, p.index.value);
    }
  }

  class PacketSplitter {
    const connID: u32
    const instances: seq<Instance>
    var txSeq: u32
    var weights: seq<nat>
    var current: nat
    var counter: nat

    /** Everything numbered so far, oldest first; the counter is its length modulo 2^32. */
    var frames: seq<Frame>

    ghost predicate Valid()
      reads this
    {
      && weights == SplitterWeights(instances)
      && (weights != [] ==> ValidCursor(weights, Cursor(current, counter)))
      && txSeq == Wrap(|frames|)
    }

    constructor (connID: u32, instances: seq<Instance>)
      ensures Valid() && this.connID == connID && this.instances == instances
      ensures frames == [] && current == 0 && counter == 0
    {
      this.connID, this.instances := connID, instances;
      txSeq, weights, current, counter, frames := 0, [], 0, 0, [];
      new;
      RecalcWeights();
    }

    method RecalcWeights()
      modifies this`weights
      ensures weights == SplitterWeights(instances)
    {
      var maxPing: int64 := 1;
      for i := 0 to |instances|
        invariant maxPing == MaxPing(instances[..i])
      {
        assert instances[..i + 1][..i] == instances[..i];
        if instances[i].ping > maxPing {
          maxPing := instances[i].ping;
        }
      }
      assert instances[..|instances|] == instances;
      weights := [];
      for i := 0 to |instances|
        invariant weights == SplitterWeights(instances)[..i]
      {
        var ping: int64 := instances[i].ping;
        if ping <= 0 {
          ping := maxPing;
        }
        var w := maxPing / ping;
        if w < 1 {
          w := 1;
        }
        weights := weights + [w];
      }
    }

    /** Up to two rounds over the instances, starting from the cursor. */
    method TryInTurn(healthy: seq<bool>) returns (index: Option<nat>)
      requires Positive(weights) && ValidCursor(weights, Cursor(current, counter)) && |healthy| == |weights|
      modifies this`current, this`counter
      ensures var p := Attempts(weights, healthy, Cursor(old(current), old(counter)), 2 * |weights|);
              index == p.index && Cursor(current, counter) == p.cursor
    {
      var n := |weights|;
      ghost var all := Attempts(weights, healthy, Cursor(current, counter), 2 * n);
      for attempts := 0 to 2 * n
        invariant ValidCursor(weights, Cursor(current, counter))
        invariant all == Attempts(weights, healthy, Cursor(current, counter), 2 * n - attempts)
      {
        ghost var c := Cursor(current, counter);
        if counter >= weights[current] {
          counter := 0;
          current := Succ(current, n);
        }
        counter := counter + 1;
        assert Cursor(current, counter) == Advance(weights, c);
        if healthy[current] {
          return Some(current);
        }
        counter := 0;
        current := Succ(current, n);
      }
      return None;
    }

    /** The fallback after the rounds is the first healthy instance in list order. */
    method PickInstance(healthy: seq<bool>) returns (index: Option<nat>)
      requires Valid() && |healthy| == |instances|
      modifies this`current, this`counter
      ensures Valid() && Positive(weights)
      ensures var p := SplitterPick(weights, healthy, Cursor(old(current), old(counter)));
              index == p.index && Cursor(current, counter) == p.cursor
    {
      if |instances| == 0 {
        return None;
      }
      index := TryInTurn(healthy);
      if index.Some? {
        return;
      }
      for i := 0 to |healthy|
        invariant FirstHealthy(healthy, 0) == FirstHealthy(healthy, i)
      {
        if healthy[i] {
          return Some(i);
        }
      }
    }

    /** Take the next number for a frame. */
    method Number(flags: byte, payload: Bytes) returns (f: Frame)
      requires Valid()
      modifies this`txSeq, this`frames
      ensures Valid() && f == Frame(connID, old(txSeq), flags, payload) && frames == old(frames) + [f]
    {
      f := Frame(connID, txSeq, flags, payload);
      txSeq := Inc(txSeq);
      frames := frames + [f];
    }

    /** The SYN goes to every instance; it fails only if none of them took it.  On a new splitter it takes number 0. */
    method SendSyn(t: Target, sends: seq<bool>) returns (ok: bool)
      requires Valid() && |sends| == |instances|
      modifies this`txSeq, this`frames
      ensures Valid() && frames == old(frames) + [Frame(connID, old(txSeq), FLAG_SYN, EncodeSyn(t))]
      ensures ok <==> exists i :: 0 <= i < |sends| && sends[i]
    {
      var f := Number(FLAG_SYN, EncodeSyn(t));
      var sent := 0;
      for i := 0 to |sends|
        invariant sent > 0 <==> exists j :: 0 <= j < i && sends[j]
        invariant sent >= 0
      {
        if sends[i] {
          sent := sent + 1;
        }
      }
      return sent > 0;
    }

    /** Pick an instance for a chunk and number it, unless none is healthy. */
    method SendChunk(chunk: Bytes, healthy: seq<bool>) returns (via: Option<nat>)
      requires Valid() && |healthy| == |instances|
      modifies this`txSeq, this`frames, this`current, this`counter
      ensures Valid() && Positive(weights)
      ensures var p := SplitterPick(weights, healthy, Cursor(old(current), old(counter)));
              via == p.index && Cursor(current, counter) == p.cursor
      ensures via.Some? ==> via.value < |instances|
      ensures frames == old(frames) + if via.None? then [] else [Frame(connID, Wrap(|old(frames)|), FLAG_DATA, chunk)]
    {
      if instances != [] {
        PickIsNearestHealthy(weights, healthy, Cursor(current, counter));
      }
      via := PickInstance(healthy);
      if via.Some? {
        var f := Number(FLAG_DATA, chunk);
      }
    }

    method PickInstanceExcluding(id: nat, healthy: seq<bool>) returns (index: Option<nat>)
      requires |healthy| == |instances|
      ensures index == Excluding(instances, id, healthy, 0)
    {
      for i := 0 to |instances|
        invariant Excluding(instances, id, healthy, 0) == Excluding(instances, id, healthy, i)
      {
        if instances[i].id != id && healthy[i] {
          return Some(i);
        }
      }
      return None;
    }

    /** Offer a numbered frame to the picked instance and, if that fails, to another one. */
    method Transmit(first: nat, healthy: seq<bool>, works: nat -> bool) returns (taken: Option<nat>)
      requires |healthy| == |instances| && first < |instances|
      ensures taken == Delivery(instances, first, healthy, works)
    {
      if works(first) {
        return Some(first);
      }
      var second := PickInstanceExcluding(instances[first].id, healthy);
      if second.Some? && works(second.value) {
        return second;
      }
      return None;
    }

    /**
     Reads chunks until they end or no instance is healthy.  Every chunk read is counted; the chunks that
     become frames are a prefix of them, all but at most the last, with consecutive numbers; the k-th goes to the
     instance picked for it with the health `healthy[k]`, and if that send fails (`works(k)` tells) to another one
     that is healthy according to `later[k]`.
     */
    method RelayClientToUpstream(input: seq<Bytes>, healthy: seq<seq<bool>>, later: seq<seq<bool>>, works: nat -> nat -> bool)
      returns (total: nat, via: seq<nat>, taken: seq<Option<nat>>)
      requires Valid() && |healthy| == |later| == |input| && Fits(weights, healthy) && Fits(weights, later)
      requires forall i :: 0 <= i < |input| ==> input[i] != []
      modifies this`txSeq, this`frames, this`current, this`counter
      ensures Valid() && |via| <= |input|
      ensures frames == old(frames) + Numbered(connID, |old(frames)|, input[..|via|])
      ensures Routed(weights, Cursor(old(current), old(counter)), healthy, via)
      ensures |via| < |input| ==> Pick(weights, Cursor(old(current), old(counter)), healthy, |via|).index == None
      ensures total == |Flatten(input[..if |via| < |input| then |via| + 1 else |via|])|
      ensures Delivered(instances, later, works, via, taken)
    {
      total, via, taken := 0, [], [];
      ghost var c0 := Cursor(current, counter);
      while |via| < |input|
        invariant Valid() && SentSoFar(weights, c0, healthy, input, connID, old(frames), frames, via, total, Cursor(current, counter))
        invariant Delivered(instances, later, works, via, taken)
        decreases |input| - |via|
      {
        var k := |via|;
        SentStep(weights, c0, healthy, input, connID, old(frames), frames, via, total, Cursor(current, counter));
        total := total + |input[k]|;
        var inst := SendChunk(input[k], healthy[k]);
        if inst.None? {
          return;
        }
        var to := Transmit(inst.value, later[k], works(k));
        DeliveredStep(instances, later, works, via, taken, inst.value);
        via, taken := via + [inst.value], taken + [to];
      }
      assert input[..|input|] == input;
    }

    /** The closing frame takes the next number and is offered to every instance. */
    method Close()
      requires Valid()
      modifies this`txSeq, this`frames
      ensures Valid() && frames == old(frames) + [Frame(connID, old(txSeq), FLAG_FIN, [])]
    {
      var f := Number(FLAG_FIN, []);
    }
  }

  // ------------------------------------------------------------------ the reverse relay

  /** What the client has been given after these calls: the non-empty payloads consumed. */
  ghost function Given(calls: seq<Call>): seq<Bytes> {
    Chunks(Run(0, calls).log)
  }

  lemma {:induction false} GivenGrows(start: u32, hist: seq<Call>, now: int)
    ensures var e := Next(Run(start, hist).state, now).entry;
            Chunks(Run(start, hist + [Nxt(now)]).log)
            == Chunks(Run(start, hist).log) + if Value(e) == [] then [] else [Value(e)]
  {
    RunSnoc(start, hist, Nxt(now));
    var t, e := Run(start, hist), Next(Run(start, hist).state, now).entry;
    if e.Some? {
      assert (t.log + [e.value])[..|t.log|] == t.log;
    }
  }

  /** The count after a write failed: everything before the last chunk, and part of that. */
  predicate CountsPart(total: nat, written: seq<Bytes>) {
    written != [] && |Flatten(written[..|written| - 1])| <= total < |Flatten(written)|
  }

  /**
   Hand every ready chunk to the client.  The k-th write takes `accepts(k)` bytes at most and fails if that is
   not the whole chunk; with `careless` set a failure is not looked at and the whole chunk is counted.
   */
  method DrainToClient(r: Reorderer, clock: nat -> int, accepts: nat -> nat, careless: bool)
    returns (written: seq<Bytes>, total: nat, failed: bool)
    requires r.Valid()
    modifies r
    ensures r.Valid()
    ensures if failed then Interrupted(r.start, old(r.hist), r.hist, clock, written) else Finished(r.start, old(r.hist), r.hist, clock, written)
    ensures if failed then CountsPart(total, written) else total == |Flatten(written)|
    ensures careless ==> !failed
  {
    written, total, failed := [], 0, false;
    var k: nat := 0;
    ghost var h0 := r.hist;
    while true
      invariant r.Valid() && Progress(r.start, h0, r.hist, clock, k, written)
      invariant total == |Flatten(written)|
      decreases r.buffer.Keys
    {
      ProgressStep(r.start, h0, r.hist, clock, k, written);
      var data := r.Next(clock(k));
      if data == [] {
        break;
      }
      SizeSnoc(written, data);
      CountsCut(written, data, accepts(k));
      written, k := written + [data], k + 1;
      if !careless && accepts(k - 1) < |data| {
        ProgressInterrupted(r.start, h0, r.hist, clock, k, written);
        return written, total + accepts(k - 1), true;
      }
      total := total + |data|;
    }
  }

  lemma {:induction false} CountsCut(written: seq<Bytes>, data: Bytes, n: nat)
    ensures n < |data| ==> CountsPart(|Flatten(written)| + n, written + [data])
  {
    SizeSnoc(written, data);
    assert (written + [data])[..|written + [data]| - 1] == written;
  }

  /** After `k` calls of a drain that began with the calls `h0`. */
  ghost predicate Progress(start: u32, h0: seq<Call>, h: seq<Call>, clock: nat -> int, k: nat, chunks: seq<Bytes>) {
    && Remains(Run(start, h0).state, h0, Run(start, h).state, h, clock, k, chunks)
    && Chunks(Run(start, h).log) == Chunks(Run(start, h0).log) + chunks
  }

  /** The drain is over: it made all its calls and handed out all its chunks. */
  ghost predicate Finished(start: u32, h0: seq<Call>, h: seq<Call>, clock: nat -> int, chunks: seq<Bytes>) {
    var d := Drain(Run(start, h0).state, clock, 0);
    && h == h0 + NextCalls(clock, 0, d.calls) && chunks == Chunks(d.log)
    && Chunks(Run(start, h).log) == Chunks(Run(start, h0).log) + chunks
  }

  /** The drain was given up: it made some of its calls and handed out some of its chunks. */
  ghost predicate Interrupted(start: u32, h0: seq<Call>, h: seq<Call>, clock: nat -> int, chunks: seq<Bytes>) {
    var d := Drain(Run(start, h0).state, clock, 0);
    && h <= h0 + NextCalls(clock, 0, d.calls) && chunks <= Chunks(d.log)
    && Chunks(Run(start, h).log) == Chunks(Run(start, h0).log) + chunks
  }

  lemma {:induction false} ProgressStep(start: u32, h0: seq<Call>, h: seq<Call>, clock: nat -> int, k: nat, chunks: seq<Bytes>)
    requires Progress(start, h0, h, clock, k, chunks)
    ensures var data := Value(Next(Run(start, h).state, clock(k)).entry);
            var h' := h + [Nxt(clock(k))];
            if data == [] then Finished(start, h0, h', clock, chunks)
            else Progress(start, h0, h', clock, k + 1, chunks + [data])
                 && Next(Run(start, h).state, clock(k)).state.buffer.Keys < Run(start, h).state.buffer.Keys
  {
    GivenStep(start, h0, h, clock(k), chunks);
    RunSnoc(start, h, Nxt(clock(k)));
    RemainsStep(Run(start, h0).state, h0, Run(start, h).state, h, clock, k, chunks);
  }

  lemma {:induction false} GivenStep(start: u32, h0: seq<Call>, h: seq<Call>, now: int, chunks: seq<Bytes>)
    requires Chunks(Run(start, h).log) == Chunks(Run(start, h0).log) + chunks
    ensures var data := Value(Next(Run(start, h).state, now).entry);
            Chunks(Run(start, h + [Nxt(now)]).log) == Chunks(Run(start, h0).log) + if data == [] then chunks else chunks + [data]
  {
    GivenGrows(start, h, now);
    var data := Value(Next(Run(start, h).state, now).entry);
    Regroup(Chunks(Run(start, h0).log), chunks, [data]);
  }

  lemma {:induction false} Regroup(a: seq<Bytes>, b: seq<Bytes>, c: seq<Bytes>)
    ensures a + b + c == a + (b + c)
  {
  }

  lemma {:induction false} CountsAdd(total: nat, written: seq<Bytes>, n: nat, more: seq<Bytes>)
    requires total == |Flatten(written)|
    ensures n == |Flatten(more)| ==> total + n == |Flatten(written + more)|
    ensures CountsPart(n, more) ==> CountsPart(total + n, written + more)
  {
    FlattenConcat(written, more);
    if CountsPart(n, more) {
      FlattenConcat(written, more[..|more| - 1]);
      assert (written + more)[..|written + more| - 1] == written + more[..|more| - 1];
    }
  }

  lemma {:induction false} ProgressInterrupted(start: u32, h0: seq<Call>, h: seq<Call>, clock: nat -> int, k: nat, chunks: seq<Bytes>)
    requires Progress(start, h0, h, clock, k, chunks)
    ensures Interrupted(start, h0, h, clock, chunks)
  {
    var d := Drain(Run(start, h0).state, clock, 0);
    assert NextCalls(clock, 0, k) <= NextCalls(clock, 0, d.calls);
  }

  /** The calls on the reorderer once it has been drained. */
  ghost function DrainedCalls(hist: seq<Call>, clock: nat -> int): seq<Call> {
    hist + NextCalls(clock, 0, Drain(Run(0, hist).state, clock, 0).calls)
  }

  /** What one round of the relay does to its reorderer. */
  ghost function AfterInput(hist: seq<Call>, x: Input): seq<Call> {
    match x
    case Done => hist
    case Tick(clock, _) => DrainedCalls(hist, clock)
    case Incoming(f, clock) =>
      if IsFin(f.flags) || IsRst(f.flags) then DrainedCalls(hist, clock)
      else if CarriesData(f) then DrainedCalls(hist + [Ins(f.num, f.payload)], clock)
      else hist
  }

  ghost function Replay(inputs: seq<Input>): seq<Call> {
    if inputs == [] then [] else AfterInput(Replay(inputs[..|inputs| - 1]), inputs[|inputs| - 1])
  }

  datatype Ending = Exhausted | Cancelled | IdleTimeout | Closed | WriteFailed

  predicate Continues(x: Input) {
    match x
    case Done => false
    case Tick(_, idle) => !idle
    case Incoming(f, _) => !IsFin(f.flags) && !IsRst(f.flags)
  }

  predicate EndsBy(x: Input, ending: Ending) {
    match ending
    case Exhausted => false
    case Cancelled => x.Done?
    case IdleTimeout => x.Tick? && x.idle
    case Closed => x.Incoming? && (IsFin(x.frame.flags) || IsRst(x.frame.flags))
    case WriteFailed => x.Tick? || (x.Incoming? && CarriesData(x.frame))
  }

  /** Where a relay over `inputs` stopped, and why. */
  predicate StoppedAt(inputs: seq<Input>, handled: nat, ending: Ending) {
    if ending.Exhausted? then handled == |inputs| && forall i :: 0 <= i < handled ==> Continues(inputs[i])
    else 0 < handled <= |inputs| && EndsBy(inputs[handled - 1], ending) && forall i :: 0 <= i < handled - 1 ==> Continues(inputs[i])
  }

  /** One round with the calls before and after it, the chunks handed out, their count, and the ending if it was the last. */
  ghost predicate Rounded(h: seq<Call>, x: Input, h': seq<Call>, more: seq<Bytes>, n: nat, ending: Ending) {
    && Given(h') == Given(h) + more
    && (if ending.WriteFailed? then h' <= AfterInput(h, x) && CountsPart(n, more) else h' == AfterInput(h, x) && n == |Flatten(more)|)
    && (if ending.Exhausted? then Continues(x) else EndsBy(x, ending))
  }

  method Round(r: Reorderer, x: Input, accepts: nat -> nat) returns (more: seq<Bytes>, n: nat, ending: Ending)
    requires r.Valid() && r.start == 0
    modifies r
    ensures r.Valid() && Rounded(old(r.hist), x, r.hist, more, n, ending)
  {
    more, n, ending := [], 0, Exhausted;
    var failed;
    match x {
      case Done =>
        ending := Cancelled;
      case Tick(clock, idle) =>
        more, n, failed := DrainToClient(r, clock, accepts, false);
        ending := if failed then WriteFailed else if idle then IdleTimeout else Exhausted;
      case Incoming(f, clock) =>
        if IsFin(f.flags) || IsRst(f.flags) {
          more, n, failed := DrainToClient(r, clock, accepts, true);
          return more, n, Closed;
        }
        if IsAck(f.flags) || IsSyn(f.flags) || f.payload == [] {
          return;
        }
        RunSnoc(0, r.hist, Ins(f.num, f.payload));
        r.Insert(f.num, f.payload);
        more, n, failed := DrainToClient(r, clock, accepts, false);
        ending := if failed then WriteFailed else Exhausted;
    }
  }

  /**
   A relay over `inputs`: the client was given exactly what a reorderer starting at 0 consumes from the inputs
   handled before the relay stopped, and every byte of it is counted, unless a write failed in the last of them.
   */
  ghost predicate Relayed(inputs: seq<Input>, handled: nat, ending: Ending, calls: seq<Call>, written: seq<Bytes>, total: nat) {
    && written == Given(calls) && StoppedAt(inputs, handled, ending)
    && if ending.WriteFailed? then calls <= Replay(inputs[..handled]) && CountsPart(total, written)
       else calls == Replay(inputs[..handled]) && total == |Flatten(written)|
  }

  /** The stopping point moves on by one round. */
  lemma {:induction false} StopsLater(inputs: seq<Input>, i: nat, ending: Ending)
    requires i < |inputs| && StoppedAt(inputs[..i], i, Exhausted)
    requires if ending.Exhausted? then Continues(inputs[i]) else EndsBy(inputs[i], ending)
    ensures if ending.Exhausted? then StoppedAt(inputs[..i + 1], i + 1, Exhausted) else StoppedAt(inputs, i + 1, ending)
  {
    assert forall j :: 0 <= j < i ==> inputs[j] == inputs[..i][j];
  }

  lemma {:induction false} RelayedStep(inputs: seq<Input>, i: nat, h: seq<Call>, written: seq<Bytes>, total: nat,
                                       h': seq<Call>, more: seq<Bytes>, n: nat, ending: Ending)
    requires i < |inputs| && Relayed(inputs[..i], i, Exhausted, h, written, total) && Rounded(h, inputs[i], h', more, n, ending)
    ensures if ending.Exhausted? then Relayed(inputs[..i + 1], i + 1, Exhausted, h', written + more, total + n)
            else Relayed(inputs, i + 1, ending, h', written + more, total + n)
  {
    StopsLater(inputs, i, ending);
    ReplayStep(inputs, i);
    CountsAdd(total, written, n, more);
    assert inputs[..i][..i] == inputs[..i] && inputs[..i + 1][..i + 1] == inputs[..i + 1];
    var all := Replay(inputs[..i + 1]);
    assert all == AfterInput(h, inputs[i]);
  }

  /** The reverse relay, for any sequence of ticks, frames and write results. */
  method RelayUpstreamToClient(inputs: seq<Input>, accepts: nat -> nat -> nat)
    returns (written: seq<Bytes>, total: nat, handled: nat, ending: Ending, r: Reorderer)
    ensures r.Valid() && r.start == 0 && Relayed(inputs, handled, ending, r.hist, written, total)
  {
    r := new Reorderer(0, 0);
    written, total := [], 0;
    for i := 0 to |inputs|
      invariant fresh(r) && r.Valid() && r.start == 0
      invariant Relayed(inputs[..i], i, Exhausted, r.hist, written, total)
    {
      ghost var h := r.hist;
      var more, n;
      more, n, ending := Round(r, inputs[i], accepts(i));
      RelayedStep(inputs, i, h, written, total, r.hist, more, n, ending);
      written, total := written + more, total + n;
      if !ending.Exhausted? {
        return written, total, i + 1, ending, r;
      }
    }
    assert inputs[..|inputs|] == inputs;
    return written, total, |inputs|, Exhausted, r;
  }

  lemma {:induction false} ReplayStep(inputs: seq<Input>, i: nat)
    requires i < |inputs|
    ensures Replay(inputs[..i + 1]) == AfterInput(Replay(inputs[..i]), inputs[i])
  {
    assert inputs[..i + 1][..i] == inputs[..i];
  }

  /** Everything inserted came in as a reverse data frame with a payload. */
  ghost predicate FromInputs(calls: seq<Call>, inputs: seq<Input>) {
    forall x :: x in calls && x.Ins? ==>
      exists i :: 0 <= i < |inputs| && inputs[i].Incoming? && CarriesData(inputs[i].frame)
                  && inputs[i].frame.num == x.num && inputs[i].frame.payload == x.data
  }

  lemma {:induction false} ReplayFromInputs(inputs: seq<Input>)
    ensures FromInputs(Replay(inputs), inputs)
  {
    if inputs != [] {
      var before, last := inputs[..|inputs| - 1], inputs[|inputs| - 1];
      ReplayFromInputs(before);
      forall x | x in Replay(inputs) && x.Ins?
        ensures exists i :: 0 <= i < |inputs| && inputs[i].Incoming? && CarriesData(inputs[i].frame)
                            && inputs[i].frame.num == x.num && inputs[i].frame.payload == x.data
      {
        if x in Replay(before) {
          var i :| 0 <= i < |before| && before[i].Incoming? && CarriesData(before[i].frame)
                   && before[i].frame.num == x.num && before[i].frame.payload == x.data;
          assert inputs[i] == before[i];
        } else {
          assert inputs[|inputs| - 1].Incoming?;
        }
      }
    }
  }

  /** The frame came in as an input with one of the four control bits unset and this number and payload. */
  ghost predicate CameIn(inputs: seq<Input>, num: u32, data: Bytes) {
    exists i :: 0 <= i < |inputs| && inputs[i].Incoming? && inputs[i].frame.flags % 16 == 0
                && inputs[i].frame.num == num && inputs[i].frame.payload == data
  }

  lemma {:induction false} KeepsCalls(hist: seq<Call>, x: Input)
    ensures hist <= AfterInput(hist, x)
    ensures x.Incoming? && x.frame.flags % 16 == 0 && x.frame.payload != [] ==> Ins(x.frame.num, x.frame.payload) in AfterInput(hist, x)
  {
    if x.Incoming? {
      CarriesDataIff(x.frame);
      var y := Ins(x.frame.num, x.frame.payload);
      assert y in hist + [y];
    }
  }

  /** Every data frame that is handled enters the reorderer. */
  lemma {:induction false} ReplayHasInput(inputs: seq<Input>, i: nat)
    requires i < |inputs| && inputs[i].Incoming? && inputs[i].frame.flags % 16 == 0 && inputs[i].frame.payload != []
    ensures Ins(inputs[i].frame.num, inputs[i].frame.payload) in Replay(inputs)
  {
    var n := |inputs| - 1;
    KeepsCalls(Replay(inputs[..n]), inputs[n]);
    if i < n {
      ReplayHasInput(inputs[..n], i);
      assert inputs[..n][i] == inputs[i];
    }
  }

  /** The reorderer was given exactly the data frames that came in. */
  lemma {:induction false} ReplayInsertsIff(inputs: seq<Input>, num: u32, data: Bytes)
    ensures Ins(num, data) in Replay(inputs) <==> CameIn(inputs, num, data) && data != []
  {
    ReplayFromInputs(inputs);
    if Ins(num, data) in Replay(inputs) {
      var i :| 0 <= i < |inputs| && inputs[i].Incoming? && CarriesData(inputs[i].frame)
               && inputs[i].frame.num == num && inputs[i].frame.payload == data;
      CarriesDataIff(inputs[i].frame);
    }
    if CameIn(inputs, num, data) && data != [] {
      var i :| 0 <= i < |inputs| && inputs[i].Incoming? && inputs[i].frame.flags % 16 == 0
               && inputs[i].frame.num == num && inputs[i].frame.payload == data;
      ReplayHasInput(inputs, i);
    }
  }

  /** A relay that has not lost a write has nothing ready left: it drained after every frame. */
  lemma {:induction false} RelayIsDry(inputs: seq<Input>)
    ensures var s := Run(0, Replay(inputs)).state; s.nextSeq !in s.buffer
  {
    if inputs != [] {
      var n := |inputs| - 1;
      RelayIsDry(inputs[..n]);
      RelayBuffersData(inputs[..n]);
      RoundIsDry(Replay(inputs[..n]), inputs[n]);
    }
  }

  lemma {:induction false} DrainedCallsDry(hist: seq<Call>, clock: nat -> int)
    requires Ahead(Run(0, hist).state) && Full(Run(0, hist).state)
    ensures var s := Run(0, DrainedCalls(hist, clock)).state; s.nextSeq !in s.buffer
  {
    DrainIsRun(0, hist, clock, 0);
    DrainConserves(Run(0, hist).state, clock, 0);
  }

  lemma {:induction false} InsertKeepsFull(s: State, num: u32, data: Bytes)
    requires Ahead(s) && Full(s) && data != []
    ensures var s' := Apply(Trace(s, []), Ins(num, data)).state; Ahead(s') && Full(s')
  {
  }

  lemma {:induction false} InsertedDry(hist: seq<Call>, num: u32, data: Bytes, clock: nat -> int)
    requires Ahead(Run(0, hist).state) && Full(Run(0, hist).state) && data != []
    ensures var s := Run(0, DrainedCalls(hist + [Ins(num, data)], clock)).state; s.nextSeq !in s.buffer
  {
    RunSnoc(0, hist, Ins(num, data));
    InsertKeepsFull(Run(0, hist).state, num, data);
    DrainedCallsDry(hist + [Ins(num, data)], clock);
  }

  lemma {:induction false} RoundIsDry(hist: seq<Call>, x: Input)
    requires Ahead(Run(0, hist).state) && Full(Run(0, hist).state) && Run(0, hist).state.nextSeq !in Run(0, hist).state.buffer
    ensures var s := Run(0, AfterInput(hist, x)).state; s.nextSeq !in s.buffer
  {
    match x
    case Done =>
    case Tick(clock, _) => DrainedCallsDry(hist, clock);
    case Incoming(f, clock) =>
      if IsFin(f.flags) || IsRst(f.flags) {
        DrainedCallsDry(hist, clock);
      } else if CarriesData(f) {
        InsertedDry(hist, f.num, f.payload, clock);
      }
  }

  /** Ticks and closing frames give a gap up if the timer has expired, and only then. */
  lemma {:induction false} GapsAfterInput(inputs: seq<Input>, x: Input)
    requires x.Tick? || (x.Incoming? && (IsFin(x.frame.flags) || IsRst(x.frame.flags)))
    ensures var s := Run(0, Replay(inputs)).state;
            Gaps(Run(0, Replay(inputs + [x])).state) == Gaps(s) - (if Expires(s, x.clock(0)) then 1 else 0)
  {
    ReplaySnoc(inputs, x);
    RelayBuffersData(inputs);
    DrainIsRun(0, Replay(inputs), x.clock, 0);
    DrainGaps(Run(0, Replay(inputs)).state, x.clock, 0);
  }

  // ------------------------------------------------------------------ ticks without further frames

  function TickInputs(clocks: seq<nat -> int>): (xs: seq<Input>)
    ensures |xs| == |clocks|
  {
    seq(|clocks|, i requires 0 <= i < |clocks| => Tick(clocks[i], false))
  }

  lemma {:induction false} TickOnce(hist: seq<Call>, clock: nat -> int)
    ensures var d := Drain(Run(0, hist).state, clock, 0);
            Run(0, AfterInput(hist, Tick(clock, false))) == Trace(d.state, Run(0, hist).log + d.log)
  {
    DrainIsRun(0, hist, clock, 0);
  }

  lemma {:induction false} ReplaySnoc(inputs: seq<Input>, x: Input)
    ensures Replay(inputs + [x]) == AfterInput(Replay(inputs), x)
  {
    assert (inputs + [x])[..|inputs|] == inputs;
  }

  /** The relay's ticks amount to drains of its reorderer. */
  ghost predicate TicksLikeDrains(inputs: seq<Input>, clocks: seq<nat -> int>) {
    var was, now := Run(0, Replay(inputs)), Run(0, Replay(inputs + TickInputs(clocks)));
    now.state == Ticks(was.state, clocks).state && now.log == was.log + Ticks(was.state, clocks).log
  }

  lemma {:induction false} TickSnoc(inputs: seq<Input>, clocks: seq<nat -> int>, clock: nat -> int)
    requires TicksLikeDrains(inputs, clocks)
    ensures TicksLikeDrains(inputs, clocks + [clock])
  {
    var was, ticked := Run(0, Replay(inputs)), inputs + TickInputs(clocks);
    var t := Ticks(was.state, clocks);
    assert (clocks + [clock])[..|clocks|] == clocks;
    assert inputs + TickInputs(clocks + [clock]) == ticked + [Tick(clock, false)];
    ReplaySnoc(ticked, Tick(clock, false));
    TickOnce(Replay(ticked), clock);
    Associate(was.log, t.log, Drain(t.state, clock, 0).log);
  }

  lemma {:induction false} TickLast(inputs: seq<Input>, clocks: seq<nat -> int>)
    requires clocks != [] && TicksLikeDrains(inputs, clocks[..|clocks| - 1])
    ensures TicksLikeDrains(inputs, clocks)
  {
    var n := |clocks| - 1;
    TickSnoc(inputs, clocks[..n], clocks[n]);
    assert clocks == clocks[..n] + [clocks[n]];
  }

  lemma {:induction false} NoTicks(inputs: seq<Input>)
    ensures TicksLikeDrains(inputs, [])
  {
    assert inputs + TickInputs([]) == inputs;
    assert Run(0, Replay(inputs)).log + [] == Run(0, Replay(inputs)).log;
  }

  lemma {:induction false} Associate(a: seq<Entry>, b: seq<Entry>, c: seq<Entry>)
    ensures a + b + c == a + (b + c)
  {
  }

  lemma {:induction false} TicksAreDrains(inputs: seq<Input>, clocks: seq<nat -> int>)
    ensures TicksLikeDrains(inputs, clocks)
    decreases |clocks|
  {
    if clocks == [] {
      NoTicks(inputs);
    } else {
      var n := |clocks| - 1;
      TicksAreDrains(inputs, clocks[..n]);
      TickLast(inputs, clocks);
    }
  }

  /** What a relay buffers is ahead of what it waits for and never empty. */
  lemma {:induction false} RelayBuffersData(inputs: seq<Input>)
    ensures Ahead(Run(0, Replay(inputs)).state) && Full(Run(0, Replay(inputs)).state)
  {
    var calls := Replay(inputs);
    RunAhead(0, calls);
    RunFromInserts(0, calls);
    ReplayFromInputs(inputs);
    forall k | k in Run(0, calls).state.buffer ensures Run(0, calls).state.buffer[k] != [] {
      assert Ins(k, Run(0, calls).state.buffer[k]) in calls;
    }
  }

  lemma {:induction false} GivenAll(log: seq<Entry>, e: Entry)
    requires e in log && e.data != []
    ensures e.data in Chunks(log)
  {
    var n := |log| - 1;
    if e in log[..n] {
      GivenAll(log[..n], e);
    } else {
      assert e == log[n];
    }
  }

  /** One tick more than the buffer has gaps, each the gap timeout after the readings before it. */
  ghost predicate EnoughTicks(s: State, clocks: seq<nat -> int>) {
    && Spaced(clocks, |s.buffer|) && |clocks| == Gaps(s) + 1
    && (s.timer.Since? ==> s.timer.at <= clocks[0](0))
  }

  /** Nothing is buffered any more, and every chunk that was buffered has been given after those given before. */
  ghost predicate EverythingGiven(before: seq<Call>, after: seq<Call>) {
    var m := Run(0, before).state.buffer;
    && Run(0, after).state.buffer == map[]
    && (forall k :: k in m ==> m[k] in Given(after))
    && Given(before) <= Given(after)
  }

  /**
   Progress of the relay.  After whatever inputs, if no further frame arrives and no write fails, then as many
   ticks as the buffer has gaps and one more, each the gap timeout after the readings before it, make the relay
   write every chunk it had buffered; nothing stays behind.
   */
  lemma {:induction false} TicksDeliverEverything(inputs: seq<Input>, clocks: seq<nat -> int>, calls: seq<Call>, written: seq<Bytes>, total: nat)
    requires EnoughTicks(Run(0, Replay(inputs)).state, clocks)
    requires Relayed(inputs + TickInputs(clocks), |inputs| + |clocks|, Exhausted, calls, written, total)
    ensures written == Given(calls) && EverythingGiven(Replay(inputs), calls) && total == |Flatten(written)|
  {
    RelayedWhole(inputs + TickInputs(clocks), calls, written, total);
    TicksEmptyBuffer(inputs, clocks);
  }

  lemma {:induction false} RelayedWhole(inputs: seq<Input>, calls: seq<Call>, written: seq<Bytes>, total: nat)
    requires Relayed(inputs, |inputs|, Exhausted, calls, written, total)
    ensures calls == Replay(inputs) && written == Given(Replay(inputs)) && total == |Flatten(written)|
  {
    assert inputs[..|inputs|] == inputs;
  }

  lemma {:induction false} TicksEmptyBuffer(inputs: seq<Input>, clocks: seq<nat -> int>)
    requires EnoughTicks(Run(0, Replay(inputs)).state, clocks)
    ensures EverythingGiven(Replay(inputs), Replay(inputs + TickInputs(clocks)))
  {
    var was := Run(0, Replay(inputs));
    TicksAreDrains(inputs, clocks);
    RelayBuffersData(inputs);
    GapsAreEventuallyPassed(was.state, clocks);
    TickedIsGiven(was.log, Ticks(was.state, clocks).log, was.state);
  }

  lemma {:induction false} TickedIsGiven(log: seq<Entry>, more: seq<Entry>, s: State)
    requires Full(s) && forall k :: k in s.buffer ==> Entry(k, s.buffer[k]) in more
    ensures forall k :: k in s.buffer ==> s.buffer[k] in Chunks(log + more)
    ensures Chunks(log) <= Chunks(log + more)
  {
    forall k | k in s.buffer ensures s.buffer[k] in Chunks(log + more) {
      GivenAll(log + more, Entry(k, s.buffer[k]));
    }
    ChunksConcat(log, more);
  }

  lemma {:induction false} AppendChunk(connId: u32, first: nat, input: seq<Bytes>, i: nat)
    requires i < |input|
    ensures Numbered(connId, first, input[..i + 1])
            == Numbered(connId, first, input[..i]) + [Frame(connId, Wrap(first + i), FLAG_DATA, input[i])]
    ensures Flatten(input[..i + 1]) == Flatten(input[..i]) + input[i]
  {
    assert input[..i + 1] == input[..i] + [input[i]];
    FlattenSnoc(input[..i], input[i]);
  }
}
