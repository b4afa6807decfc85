/**
 From the drain log to the upstream write queue.  A handler drains under the connection's lock but pushes
 after releasing it, so the order of the queue depends on how handlers of one connection interleave.
 */
module WriteQueue {
  import opened Basics
  import opened Reorder
  import opened ReorderGaps
  import opened Server

  /** An in-order selection of log entries, none of them twice. */
  ghost predicate InOrderPart(part: seq<Entry>, log: seq<Entry>) {
    Increasing(part) && forall e :: e in part ==> e in log
  }

  function Pending(c: Conn): seq<Entry> {
    if c.batches == [] then [] else c.batches[0]
  }

  /** All chunks that are still to be pushed, in the order in which they were drained. */
  function Joined(batches: seq<seq<Entry>>): seq<Entry> {
    if batches == [] then [] else batches[0] + Joined(batches[1..])
  }

  lemma {:induction false} JoinedConcat(a: seq<seq<Entry>>, b: seq<seq<Entry>>)
    ensures Joined(a + b) == Joined(a) + Joined(b)
  {
    if a == [] {
      assert a + b == b;
    } else {
      JoinedConcat(a[1..], b);
      assert (a + b)[1..] == a[1..] + b;
      assert (a + b)[0] == a[0];
    }
  }

  lemma {:induction false} JoinedAround(batches: seq<seq<Entry>>, i: nat)
    requires i < |batches|
    ensures Joined(batches) == Joined(batches[..i]) + batches[i] + Joined(batches[i + 1..])
  {
    assert batches == batches[..i] + ([batches[i]] + batches[i + 1..]);
    JoinedConcat(batches[..i], [batches[i]] + batches[i + 1..]);
    assert ([batches[i]] + batches[i + 1..])[1..] == batches[i + 1..];
  }

  /**
   The batches wait in the order of the log, whoever drained them; and as long as no two handlers overlapped, what was pushed and
   what is about to be pushed follow the log.
   */
  ghost predicate QueueInv(c: Conn) {
    && (forall i :: 0 <= i < |c.batches| ==> c.batches[i] != [])
    && (Increasing(Log(c)) ==> InOrderPart(Joined(c.batches), Log(c)))
    && (!c.overlapped && Increasing(Log(c)) ==>
          |c.batches| <= 1 && InOrderPart(c.pushed + Pending(c), Log(c)))
  }

  lemma {:induction false} NonEmptyIncreasing(log: seq<Entry>)
    requires Increasing(log)
    ensures Increasing(NonEmpty(log))
  {
    if log != [] {
      var before, last := log[..|log| - 1], log[|log| - 1];
      NonEmptyIncreasing(before);
      var r := NonEmpty(before);
      forall e | e in r ensures e.num < last.num {
        assert e in before;
      }
      assert forall i :: 0 <= i < |r| ==> r[i] in r;
    }
  }

  lemma {:induction false} IncreasingAppend(a: seq<Entry>, b: seq<Entry>, la: seq<Entry>, lb: seq<Entry>)
    requires InOrderPart(a, la) && InOrderPart(b, lb) && Increasing(la + lb)
    ensures InOrderPart(a + b, la + lb)
  {
    var s, l := a + b, la + lb;
    forall i, j | 0 <= i < j < |s| ensures s[i].num < s[j].num {
      if i < |a| <= j {
        assert s[i] in la && s[j] in lb;
        var x :| 0 <= x < |la| && la[x] == s[i];
        var y :| 0 <= y < |lb| && lb[y] == s[j];
        assert l[x].num < l[|la| + y].num;
      }
    }
  }

  lemma {:induction false} DrainLog(c: Conn, clock: nat -> int)
    ensures Log(OnDrain(c, clock)) == Log(c) + Drain(Buffer(c), clock, 0).log
    ensures Buffer(OnDrain(c, clock)) == Drain(Buffer(c), clock, 0).state
  {
    DrainIsRun(c.start, c.calls, clock, 0);
  }

  lemma {:induction false} InsertLog(c: Conn, num: u32, data: Bytes)
    ensures Log(c.(calls := c.calls + [Ins(num, data)])) == Log(c)
    ensures Buffer(c.(calls := c.calls + [Ins(num, data)])) == Insert(Buffer(c), num, data)
  {
    RunSnoc(c.start, c.calls, Ins(num, data));
  }

  lemma {:induction false} DrainQueueOrder(c: Conn, clock: nat -> int)
    requires QueueInv(c) && !OnDrain(c, clock).overlapped && Increasing(Log(OnDrain(c, clock)))
    ensures var c' := OnDrain(c, clock); |c'.batches| <= 1 && InOrderPart(c'.pushed + Pending(c'), Log(c'))
  {
    var c', log := OnDrain(c, clock), Drain(Buffer(c), clock, 0).log;
    DrainLog(c, clock);
    IncreasingParts(Log(c), log);
    if NonEmpty(log) == [] {
      assert Pending(c') == Pending(c);
    } else {
      NonEmptyIncreasing(log);
      assert c.pushed + Pending(c) == c.pushed;
      IncreasingAppend(c.pushed, NonEmpty(log), Log(c), log);
    }
  }

  lemma {:induction false} JoinedOne(batches: seq<seq<Entry>>, batch: seq<Entry>)
    ensures Joined(batches + [batch]) == Joined(batches) + batch
  {
    JoinedConcat(batches, [batch]);
    assert [batch][1..] == [];
    assert Joined([batch]) == batch + Joined([]) == batch;
  }

  lemma {:induction false} DrainBatchOrder(c: Conn, clock: nat -> int)
    requires QueueInv(c) && Increasing(Log(OnDrain(c, clock)))
    ensures var c' := OnDrain(c, clock); InOrderPart(Joined(c'.batches), Log(c'))
  {
    var log := Drain(Buffer(c), clock, 0).log;
    var all, batch := Joined(c.batches), NonEmpty(log);
    DrainLog(c, clock);
    IncreasingParts(Log(c), log);
    NonEmptyIncreasing(log);
    IncreasingAppend(all, batch, Log(c), log);
    if batch == [] {
      assert all + batch == all;
    } else {
      JoinedOne(c.batches, batch);
    }
  }

  lemma {:induction false} IncreasingParts(a: seq<Entry>, b: seq<Entry>)
    requires Increasing(a + b)
    ensures Increasing(a) && Increasing(b)
  {
    assert forall i :: 0 <= i < |a| ==> a[i] == (a + b)[i];
    assert forall i :: 0 <= i < |b| ==> b[i] == (a + b)[|a| + i];
  }

  lemma {:induction false} DrainQueue(c: Conn, clock: nat -> int)
    requires QueueInv(c)
    ensures QueueInv(OnDrain(c, clock))
  {
    var c' := OnDrain(c, clock);
    if Increasing(Log(c')) {
      DrainBatchOrder(c, clock);
      if !c'.overlapped {
        DrainQueueOrder(c, clock);
      }
    }
  }

  lemma {:induction false} DropOne(a: seq<Entry>, batch: seq<Entry>, log: seq<Entry>)
    requires batch != [] && InOrderPart(a + batch, log)
    ensures InOrderPart(a + batch[1..], log)
  {
    var was, after := a + batch, a + batch[1..];
    assert forall k :: 0 <= k < |after| ==> after[k] == was[if k < |a| then k else k + 1];
  }

  lemma {:induction false} DropAt(s: seq<Entry>, k: nat, log: seq<Entry>)
    requires k < |s| && InOrderPart(s, log)
    ensures InOrderPart(s[..k] + s[k + 1..], log)
  {
    var r := s[..k] + s[k + 1..];
    assert forall i :: 0 <= i < |r| ==> r[i] == s[if i < k then i else i + 1];
  }

  lemma {:induction false} CutHead(p: seq<Entry>, b: seq<Entry>, q: seq<Entry>)
    requires b != []
    ensures var all := p + b + q; all[..|p|] + all[|p| + 1..] == p + b[1..] + q
  {
  }

  lemma {:induction false} PushJoins(c: Conn, i: nat)
    requires i < |c.batches| && c.batches[i] != []
    ensures Joined(OnPush(c, i).batches) == Joined(c.batches[..i]) + c.batches[i][1..] + Joined(c.batches[i + 1..])
  {
    var bs, bs', rest := c.batches, OnPush(c, i).batches, c.batches[i][1..];
    if rest == [] {
      JoinedConcat(bs[..i], bs[i + 1..]);
      assert Joined(bs[..i]) + rest == Joined(bs[..i]);
    } else {
      assert bs' == bs[i := rest];
      JoinedAround(bs', i);
      assert bs'[..i] == bs[..i] && bs'[i + 1..] == bs[i + 1..];
    }
  }

  /** Pushing the head of a batch takes one chunk out of the waiting ones. */
  lemma {:induction false} PushBatchOrder(c: Conn, i: nat, log: seq<Entry>)
    requires i < |c.batches| && c.batches[i] != [] && InOrderPart(Joined(c.batches), log)
    ensures InOrderPart(Joined(OnPush(c, i).batches), log)
  {
    var p, q := Joined(c.batches[..i]), Joined(c.batches[i + 1..]);
    JoinedAround(c.batches, i);
    CutHead(p, c.batches[i], q);
    DropAt(p + c.batches[i] + q, |p|, log);
    PushJoins(c, i);
  }

  lemma {:induction false} PushQueueOrder(c: Conn, log: seq<Entry>)
    requires |c.batches| == 1 && c.batches[0] != [] && InOrderPart(c.pushed + Pending(c), log)
    ensures var c' := OnPush(c, 0); |c'.batches| <= 1 && InOrderPart(c'.pushed + Pending(c'), log)
  {
    var c', batch := OnPush(c, 0), c.batches[0];
    assert Pending(c') == batch[1..];
    if |c.queue| < QUEUE_CAPACITY {
      assert c.pushed + [batch[0]] + batch[1..] == c.pushed + batch;
    } else {
      DropOne(c.pushed, batch, log);
    }
  }

  lemma {:induction false} PushQueue(c: Conn, i: nat)
    requires QueueInv(c) && i < |c.batches|
    ensures QueueInv(OnPush(c, i))
  {
    var c' := OnPush(c, i);
    assert Log(c') == Log(c);
    if Increasing(Log(c)) {
      PushBatchOrder(c, i, Log(c));
      if !c.overlapped {
        PushQueueOrder(c, Log(c));
      }
    }
  }

  lemma {:induction false} SameQueue(c: Conn, c': Conn)
    requires QueueInv(c) && c'.start == c.start && c'.calls == c.calls
    requires c'.batches == c.batches && c'.pushed == c.pushed && c'.overlapped == c.overlapped
    ensures QueueInv(c')
  {
  }

  lemma {:induction false} DataQueue(c: Conn, src: Source, num: u32, data: Bytes, now: int, clock: nat -> int)
    requires QueueInv(c)
    ensures QueueInv(OnData(c, src, num, data, now, clock))
  {
    var c1 := c.(sources := if src in c.sources then c.sources else c.sources + [src],
                 lastActive := now, calls := c.calls + [Ins(num, data)]);
    InsertLog(c, num, data);
    assert Log(c1) == Log(c);
    if c.queueOpen {
      DrainQueue(c1, clock);
    }
  }

  lemma {:induction false} FinQueue(c: Conn, clock: nat -> int)
    requires QueueInv(c)
    ensures QueueInv(OnFin(c, clock))
  {
    var c1 := if c.queueOpen then OnDrain(c, clock) else c;
    DrainQueue(c, clock);
    assert Log(OnFin(c, clock)) == Log(c1);
  }

  lemma {:induction false} ReadyQueue(c: Conn, clock: nat -> int)
    requires QueueInv(c)
    ensures QueueInv(OnReady(c, clock))
  {
    var c1 := c.(connected := true, queueOpen := true, queue := []);
    assert Log(c1) == Log(c);
    DrainQueue(c1, clock);
  }

  lemma {:induction false} QuietStep(c: Conn, e: Event)
    requires QueueInv(c) && !e.Data? && !e.Fin? && !e.Ready? && !e.Push?
    requires e.Pop? ==> c.queue != []
    ensures QueueInv(OnConn(c, e))
  {
    SameQueue(c, OnConn(c, e));
  }

  /** The queue invariant is kept by every event on a connection. */
  lemma {:induction false} QueueStep(c: Conn, e: Event)
    requires QueueInv(c)
    requires e.Push? ==> e.i < |c.batches| && c.batches[e.i] != []
    requires e.Pop? ==> c.queue != []
    ensures QueueInv(OnConn(c, e))
  {
    match e
    case Data(_, src, num, data, now, clock) => DataQueue(c, src, num, data, now, clock);
    case Fin(_, _, clock) => FinQueue(c, clock);
    case Ready(_, clock) => ReadyQueue(c, clock);
    case Push(_, i) => PushQueue(c, i);
    case _ => QuietStep(c, e);
  }

  /**
   The non-overlap condition is needed: with two handlers waiting to push, and room for two chunks, the schedule
   in which the later one pushes first breaks the order.
   */
  lemma {:induction false} OverlapBreaksOrder(c: Conn)
    requires QueueInv(c) && Increasing(Log(c)) && |c.batches| >= 2 && |c.queue| + 2 <= QUEUE_CAPACITY
    ensures var c' := OnPush(OnPush(c, 1), 0);
            c'.pushed == c.pushed + [c.batches[1][0], c.batches[0][0]] && !Increasing(c'.pushed)
  {
    var c' := OnPush(OnPush(c, 1), 0);
    BatchesInOrder(c);
    assert OnPush(c, 1).batches[0] == c.batches[0];
    assert c'.pushed == c.pushed + [c.batches[1][0], c.batches[0][0]];
    var n := |c.pushed|;
    assert c'.pushed[n].num > c'.pushed[n + 1].num;
  }

  lemma {:induction false} BatchesInOrder(c: Conn)
    requires QueueInv(c) && Increasing(Log(c)) && |c.batches| >= 2
    ensures c.batches[0][0].num < c.batches[1][0].num
  {
    var bs, all := c.batches, Joined(c.batches);
    JoinedAround(bs, 1);
    assert bs[..1] == [bs[0]] && Joined(bs[..1]) == bs[0] + Joined(bs[..1][1..]);
    assert Joined(bs[..1]) == bs[0];
    assert all[0] == bs[0][0] && all[|bs[0]|] == bs[1][0];
  }

  // ------------------------------------------------------------------ every schedule of the pushes

  /** A handler can push its next chunk, or the writer can take one. */
  predicate Movable(c: Conn, e: Event) {
    (e.Push? && e.i < |c.batches| && c.batches[e.i] != []) || (e.Pop? && c.queue != [])
  }

  /** The connection after a schedule of pushes and takes, if each is possible when its turn comes. */
  ghost function Play(c: Conn, ms: seq<Event>): Option<Conn> {
    if ms == [] then Some(c)
    else
      match Play(c, ms[..|ms| - 1])
      case None => None
      case Some(d) => if Movable(d, ms[|ms| - 1]) then Some(OnConn(d, ms[|ms| - 1])) else None
  }

  /** All moves are on the state behind pointer `h`. */
  predicate MovesOf(ms: seq<Event>, h: nat) {
    forall i :: 0 <= i < |ms| ==> (ms[i].Push? || ms[i].Pop?) && ms[i].h == h
  }

  /** Whatever the schedule, the queue accepts the chunks in the order of their numbers. */
  ghost predicate KeepsOrder(c: Conn, h: nat) {
    forall ms :: MovesOf(ms, h) && Play(c, ms).Some? ==> Increasing(Play(c, ms).value.pushed)
  }

  lemma {:induction false} PlaySnoc(c: Conn, ms: seq<Event>, e: Event)
    requires Play(c, ms).Some? && Movable(Play(c, ms).value, e)
    ensures Play(c, ms + [e]) == Some(OnConn(Play(c, ms).value, e))
  {
    assert (ms + [e])[..|ms|] == ms;
  }

  lemma {:induction false} MoveKeeps(c: Conn, e: Event)
    requires QueueInv(c) && Movable(c, e)
    ensures var d := OnConn(c, e); QueueInv(d) && Log(d) == Log(c) && d.overlapped == c.overlapped
  {
    if e.Push? {
      PushQueue(c, e.i);
      PushKeepsLog(c, e.i);
    } else {
      SameQueue(c, OnPop(c));
    }
  }

  lemma {:induction false} PushKeepsLog(c: Conn, i: nat)
    requires i < |c.batches| && c.batches[i] != []
    ensures Log(OnPush(c, i)) == Log(c) && OnPush(c, i).overlapped == c.overlapped
  {
    assert OnPush(c, i).calls == c.calls && OnPush(c, i).start == c.start;
  }

  lemma {:induction false} PlayKeeps(c: Conn, ms: seq<Event>)
    requires QueueInv(c) && Play(c, ms).Some?
    ensures var d := Play(c, ms).value; QueueInv(d) && Log(d) == Log(c) && d.overlapped == c.overlapped
  {
    if ms != [] {
      PlayKeeps(c, ms[..|ms| - 1]);
      MoveKeeps(Play(c, ms[..|ms| - 1]).value, ms[|ms| - 1]);
    }
  }

  lemma {:induction false} PushedInOrder(c: Conn)
    requires QueueInv(c) && !c.overlapped && Increasing(Log(c))
    ensures Increasing(c.pushed)
  {
    IncreasingParts(c.pushed, Pending(c));
  }

  /** The writer takes the first `n` chunks. */
  lemma {:induction false} Takes(c: Conn, h: nat, n: nat) returns (ms: seq<Event>)
    requires n <= |c.queue|
    ensures MovesOf(ms, h) && Play(c, ms) == Some(c.(queue := c.queue[n..]))
  {
    ms := [];
    assert c.queue[0..] == c.queue;
    for i := 0 to n
      invariant MovesOf(ms, h) && Play(c, ms) == Some(c.(queue := c.queue[i..]))
    {
      assert c.queue[i..][1..] == c.queue[i + 1..];
      PlaySnoc(c, ms, Pop(h));
      ms := ms + [Pop(h)];
    }
  }

  /** With two handlers waiting, a schedule breaks the order: make room, then let the later handler push first. */
  lemma {:induction false} OverlapSchedule(c: Conn, h: nat) returns (ms: seq<Event>)
    requires QueueInv(c) && Increasing(Log(c)) && |c.batches| >= 2
    ensures MovesOf(ms, h) && Play(c, ms).Some? && !Increasing(Play(c, ms).value.pushed)
  {
    var n := if |c.queue| + 2 <= QUEUE_CAPACITY then 0 else |c.queue| + 2 - QUEUE_CAPACITY;
    ms := Takes(c, h, n);
    var d := c.(queue := c.queue[n..]);
    SameQueue(c, d);
    SwapIsPossible(d);
    PlayTwo(c, ms, Push(h, 1), Push(h, 0));
    ms := ms + [Push(h, 1)] + [Push(h, 0)];
  }

  lemma {:induction false} PlayTwo(c: Conn, ms: seq<Event>, a: Event, b: Event)
    requires Play(c, ms).Some? && Movable(Play(c, ms).value, a) && Movable(OnConn(Play(c, ms).value, a), b)
    ensures Play(c, ms + [a] + [b]) == Some(OnConn(OnConn(Play(c, ms).value, a), b))
  {
    PlaySnoc(c, ms, a);
    PlaySnoc(c, ms + [a], b);
  }

  lemma {:induction false} SwapIsPossible(c: Conn)
    requires QueueInv(c) && Increasing(Log(c)) && |c.batches| >= 2 && |c.queue| + 2 <= QUEUE_CAPACITY
    ensures c.batches[1] != [] && OnPush(c, 1).batches != [] && OnPush(c, 1).batches[0] != []
    ensures !Increasing(OnPush(OnPush(c, 1), 0).pushed)
  {
    OverlapBreaksOrder(c);
  }

  /** Every schedule keeps the order if and only if nobody overlapped, for a connection that just stopped or started overlapping. */
  lemma {:induction false} KeepsOrderIff(c: Conn, h: nat)
    requires QueueInv(c) && Increasing(Log(c)) && (c.overlapped ==> |c.batches| >= 2)
    ensures KeepsOrder(c, h) <==> !c.overlapped
  {
    if c.overlapped {
      var ms := OverlapSchedule(c, h);
    } else {
      forall ms | MovesOf(ms, h) && Play(c, ms).Some? ensures Increasing(Play(c, ms).value.pushed) {
        PlayKeeps(c, ms);
        PushedInOrder(Play(c, ms).value);
      }
    }
  }

  /** The handler that drains is the second one to wait, and it drained something. */
  ghost predicate DrainsTooEarly(c: Conn, clock: nat -> int) {
    c.batches != [] && NonEmpty(Drain(Buffer(c), clock, 0).log) != []
  }

  /**
   Exactly when a drain endangers the order: on a connection that has not overlapped so far, every schedule of
   pushes and takes after the drain keeps the queue in order if and only if no handler was still pushing or the
   drain found nothing.
   */
  lemma {:induction false} DrainKeepsOrderIff(c: Conn, h: nat, clock: nat -> int)
    requires QueueInv(c) && !c.overlapped && Increasing(Log(OnDrain(c, clock)))
    ensures KeepsOrder(OnDrain(c, clock), h) <==> !DrainsTooEarly(c, clock)
  {
    DrainQueue(c, clock);
    KeepsOrderIff(OnDrain(c, clock), h);
  }

  // ------------------------------------------------------------------ one handler pushing alone

  /** The chunks of a batch that a channel holding `queue` accepts when the writer takes nothing meanwhile. */
  function Offer(queue: seq<Entry>, batch: seq<Entry>): seq<Entry>
    decreases |batch|
  {
    if batch == [] then []
    else if |queue| < QUEUE_CAPACITY then [batch[0]] + Offer(queue + [batch[0]], batch[1..])
    else Offer(queue, batch[1..])
  }

  function Min(a: int, b: int): int {
    if a < b then a else b
  }

  /** The channel keeps the first chunks up to its capacity and loses the rest, also in the initial flush. */
  lemma {:induction false} OfferKeepsWhatFits(queue: seq<Entry>, batch: seq<Entry>)
    requires |queue| <= QUEUE_CAPACITY
    ensures Offer(queue, batch) == batch[..Min(|batch|, QUEUE_CAPACITY - |queue|)]
    decreases |batch|
  {
    if batch != [] {
      if |queue| < QUEUE_CAPACITY {
        OfferKeepsWhatFits(queue + [batch[0]], batch[1..]);
        var fits := Min(|batch|, QUEUE_CAPACITY - |queue|);
        assert batch[..fits] == [batch[0]] + batch[1..][..fits - 1];
      } else {
        OfferKeepsWhatFits(queue, batch[1..]);
      }
    }
  }

  /** The only handler with a batch pushes all of it. */
  function PushAll(c: Conn): Conn
    requires |c.batches| <= 1
    decreases |Pending(c)|
  {
    if c.batches == [] || c.batches[0] == [] then c else PushAll(OnPush(c, 0))
  }

  function Settled(c: Conn): Conn {
    var taken := Offer(c.queue, Pending(c));
    c.(batches := [], queue := c.queue + taken, pushed := c.pushed + taken)
  }

  lemma {:induction false} PushOffers(c: Conn)
    requires |c.batches| == 1 && c.batches[0] != []
    ensures Settled(OnPush(c, 0)) == Settled(c) && |OnPush(c, 0).batches| <= 1
    ensures OnPush(c, 0).batches != [] ==> OnPush(c, 0).batches[0] == c.batches[0][1..]
  {
    var c', batch := OnPush(c, 0), c.batches[0];
    assert Pending(c') == batch[1..];
    if |c.queue| < QUEUE_CAPACITY {
      var rest := Offer(c.queue + [batch[0]], batch[1..]);
      assert c.queue + [batch[0]] + rest == c.queue + ([batch[0]] + rest);
      assert c.pushed + [batch[0]] + rest == c.pushed + ([batch[0]] + rest);
    }
  }

  /** Pushing step by step comes to the same as offering the whole batch. */
  lemma {:induction false} PushAllIsSettled(c: Conn)
    requires |c.batches| <= 1 && (c.batches != [] ==> c.batches[0] != [])
    ensures PushAll(c) == Settled(c)
    decreases |Pending(c)|
  {
    if c.batches == [] {
      assert c.queue + [] == c.queue && c.pushed + [] == c.pushed;
    } else {
      PushOffers(c);
      PushAllIsSettled(OnPush(c, 0));
    }
  }
}
