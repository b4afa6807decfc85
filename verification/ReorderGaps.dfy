/**
 The gap timer of the reorder buffer: when a missing frame is given up, what that costs, and how many
 expiries it takes to empty a buffer.  `Drain` is the loop every caller wraps around `Next`.
 */
module ReorderGaps {
  import opened Basics
  import opened Reorder

  // ------------------------------------------------------------------ safety of skipping

  /**
   A running timer has a witness: the call that started it saw `nextSeq` missing with later data buffered,
   and neither `nextSeq`, the timer nor the log has changed since.
   */
  lemma {:induction false} TimerWitness(start: u32, evs: seq<Call>) returns (j: nat)
    requires Run(start, evs).state.timer.Since?
    ensures j < |evs| && evs[j] == Nxt(Run(start, evs).state.timer.at)
    ensures var s := Run(start, evs[..j]).state;
            s.nextSeq == Run(start, evs).state.nextSeq && s.nextSeq !in s.buffer && s.buffer != map[]
    ensures forall i :: j < i <= |evs| ==>
              && Run(start, evs[..i]).state.nextSeq == Run(start, evs).state.nextSeq
              && Run(start, evs[..i]).state.timer == Run(start, evs).state.timer
              && Run(start, evs[..i]).log == Run(start, evs).log
  {
    var before, e := evs[..|evs| - 1], evs[|evs| - 1];
    assert evs[..|evs|] == evs;
    if e.Nxt? && Run(start, before).state.timer.Idle? {
      j := |evs| - 1;
    } else {
      j := TimerWitness(start, before);
      assert before[..j] == evs[..j];
      forall i | j < i <= |evs|
        ensures Run(start, evs[..i]).state.nextSeq == Run(start, evs).state.nextSeq
        ensures Run(start, evs[..i]).state.timer == Run(start, evs).state.timer
        ensures Run(start, evs[..i]).log == Run(start, evs).log
      {
        if i < |evs| {
          assert before[..i] == evs[..i];
        }
      }
    }
  }

  /**
   Gap-skip safety over whole runs.  If a `Next` at `now` gives up on `nextSeq`, then an earlier call, at
   least two seconds before, had already seen that number missing with later data buffered, and it has been
   awaited ever since; the skip moves to the lowest buffered frame, passes over no buffered frame, and
   removes from the buffer only the frame it delivers.
   */
  lemma {:induction false} SkipIsJustified(start: u32, evs: seq<Call>, now: int) returns (j: nat)
    requires Expires(Run(start, evs).state, now)
    ensures j < |evs| && evs[j].Nxt? && now - evs[j].now >= GAP_TIMEOUT
    ensures var s, was := Run(start, evs).state, Run(start, evs[..j]).state;
            was.nextSeq == s.nextSeq && was.nextSeq !in was.buffer && was.buffer != map[]
    ensures forall i :: j < i <= |evs| ==> Run(start, evs[..i]).log == Run(start, evs).log
    ensures var s := Run(start, evs).state;
            var n := Next(s, now);
            && n.entry.Some? && n.entry.value.num in s.buffer
            && n.entry.value.data == s.buffer[n.entry.value.num]
            && (forall q: u32 :: s.nextSeq <= q < n.entry.value.num ==> q !in s.buffer)
            && n.state.buffer == s.buffer - {n.entry.value.num}
            && n.state.nextSeq == Inc(n.entry.value.num)
  {
    j := TimerWitness(start, evs);
    RunAhead(start, evs);
    ExpiryTakesLowest(Run(start, evs).state, now);
  }

  ghost predicate Within(evs: seq<Call>, from: int) {
    forall k :: 0 <= k < |evs| && evs[k].Nxt? ==> from <= evs[k].now < from + GAP_TIMEOUT
  }

  lemma {:induction false} TimerWithin(start: u32, evs: seq<Call>, from: int)
    requires Within(evs, from)
    ensures Run(start, evs).state.timer.Since? ==> from <= Run(start, evs).state.timer.at
  {
    if evs != [] {
      TimerWithin(start, evs[..|evs| - 1], from);
    }
  }

  /** A run whose clock readings all fall within two seconds has no gap timeout. */
  lemma {:induction false} ShortRunsDoNotSkip(start: u32, evs: seq<Call>, from: int)
    requires Within(evs, from)
    ensures NoSkip(start, evs)
  {
    forall k | 0 <= k < |evs| && evs[k].Nxt? ensures !Expires(Run(start, evs[..k]).state, evs[k].now) {
      TimerWithin(start, evs[..k], from);
    }
  }

  // ------------------------------------------------------------------ the drain loop

  /** The result of one drain loop: the buffer left, the frames consumed, and the number of `Next` calls made. */
  datatype Drained = Drained(state: State, log: seq<Entry>, calls: nat)

  /** Call `Next` until it returns nil; the k-th call of the program reads the clock as `clock(k)`. */
  ghost function Drain(s: State, clock: nat -> int, k: nat): Drained
    decreases s.buffer.Keys
  {
    var n := Next(s, clock(k));
    if n.entry.None? then Drained(n.state, [], 1)
    else if n.entry.value.data == [] then Drained(n.state, [n.entry.value], 1)
    else
      assert n.entry.value.num in s.buffer && n.entry.value.num !in n.state.buffer;
      var d := Drain(n.state, clock, k + 1);
      Drained(d.state, [n.entry.value] + d.log, d.calls + 1)
  }

  lemma {:induction false} WithoutOne(m: map<u32, Bytes>, k: u32)
    requires k in m
    ensures |m - {k}| == |m| - 1
  {
    assert m.Keys == (m - {k}).Keys + {k};
    assert |m.Keys| == |(m - {k}).Keys| + 1;
  }

  lemma {:induction false} NextTakesOne(s: State, now: int)
    ensures var n := Next(s, now);
            if n.entry.Some? then n.entry.value.num in s.buffer && n.state.buffer == s.buffer - {n.entry.value.num}
            else n.state.buffer == s.buffer
  {
  }

  function NextCalls(clock: nat -> int, k: nat, calls: nat): seq<Call> {
    seq(calls, i requires 0 <= i < calls => Nxt(clock(k + i)))
  }

  ghost function ApplyAll(t: Trace, evs: seq<Call>): Trace
    decreases |evs|
  {
    if evs == [] then t else ApplyAll(Apply(t, evs[0]), evs[1..])
  }

  lemma {:induction false} RunAppend(start: u32, a: seq<Call>, b: seq<Call>)
    ensures Run(start, a + b) == ApplyAll(Run(start, a), b)
    decreases |b|
  {
    if b == [] {
      assert a + b == a;
    } else {
      RunSnoc(start, a, b[0]);
      RunAppend(start, a + [b[0]], b[1..]);
      assert a + b == (a + [b[0]]) + b[1..];
    }
  }

  lemma {:induction false} DrainIsApply(t: Trace, clock: nat -> int, k: nat)
    ensures var d := Drain(t.state, clock, k);
            ApplyAll(t, NextCalls(clock, k, d.calls)) == Trace(d.state, t.log + d.log)
    decreases t.state.buffer.Keys
  {
    var n := Next(t.state, clock(k));
    if n.entry.None? || n.entry.value.data == [] {
      LastCall(t, clock, k);
    } else {
      NextTakesOne(t.state, clock(k));
      DrainIsApply(Apply(t, Nxt(clock(k))), clock, k + 1);
      FirstCall(t, clock, k, Drain(t.state, clock, k).calls);
      var rest := Drain(n.state, clock, k + 1).log;
      assert t.log + [n.entry.value] + rest == t.log + ([n.entry.value] + rest);
    }
  }

  lemma {:induction false} LastCall(t: Trace, clock: nat -> int, k: nat)
    requires var n := Next(t.state, clock(k)); n.entry.None? || n.entry.value.data == []
    ensures var d := Drain(t.state, clock, k);
            ApplyAll(t, NextCalls(clock, k, d.calls)) == Trace(d.state, t.log + d.log)
  {
    FirstCall(t, clock, k, 1);
    assert NextCalls(clock, k + 1, 0) == [];
    assert t.log + [] == t.log;
  }

  lemma {:induction false} FirstCall(t: Trace, clock: nat -> int, k: nat, calls: nat)
    requires calls > 0
    ensures ApplyAll(t, NextCalls(clock, k, calls)) == ApplyAll(Apply(t, Nxt(clock(k))), NextCalls(clock, k + 1, calls - 1))
  {
    assert NextCalls(clock, k, calls)[1..] == NextCalls(clock, k + 1, calls - 1);
  }

  /** A drain loop is the run of its `Next` calls. */
  lemma {:induction false} DrainIsRun(start: u32, evs: seq<Call>, clock: nat -> int, k: nat)
    ensures var d := Drain(Run(start, evs).state, clock, k);
            Run(start, evs + NextCalls(clock, k, d.calls)) == Trace(d.state, Run(start, evs).log + d.log)
  {
    var d := Drain(Run(start, evs).state, clock, k);
    RunAppend(start, evs, NextCalls(clock, k, d.calls));
    DrainIsApply(Run(start, evs), clock, k);
  }

  /**
   Delivering from `from` runs into an empty frame at `q`: everything up to it is buffered, nothing before it
   is empty, and the frame after it is there.
   */
  ghost predicate StallsAt(m: map<u32, Bytes>, from: u32, q: u32) {
    && from <= q < MAX_SEQ && q + 1 in m
    && (forall x: u32 :: from <= x <= q ==> x in m)
    && (forall x: u32 :: from <= x < q ==> m[x] != [])
    && m[q] == []
  }

  ghost predicate Stalls(m: map<u32, Bytes>, from: u32) {
    exists q :: StallsAt(m, from, q)
  }

  /** Where a drain begins to deliver: at `nextSeq`, or at the lowest buffered frame if the timer has expired. */
  ghost function First(s: State, now: int): u32 {
    if Expires(s, now) then Lowest(s.buffer) else s.nextSeq
  }

  lemma {:induction false} StallsFurtherOn(m: map<u32, Bytes>, a: u32, q: u32)
    requires a in m && m[a] != [] && a < MAX_SEQ
    ensures StallsAt(m, a, q) <==> StallsAt(m - {a}, a + 1, q)
  {
    var rest := m - {a};
    if StallsAt(m, a, q) {
      assert q != a;
      forall x: u32 | a + 1 <= x <= q ensures x in rest && (x < q ==> rest[x] != []) {
        assert x in m;
      }
    }
    if StallsAt(rest, a + 1, q) {
      forall x: u32 | a <= x <= q ensures x in m && (x < q ==> m[x] != []) {
        assert a < x ==> x in rest;
      }
    }
  }

  lemma {:induction false} UnexpiredDrainStallsIff(s: State, clock: nat -> int, k: nat)
    requires Ahead(s) && !Expires(s, clock(k))
    ensures var d := Drain(s, clock, k).state;
            d.nextSeq in d.buffer <==> Stalls(s.buffer, s.nextSeq)
    decreases s.buffer.Keys
  {
    var a, n := s.nextSeq, Next(s, clock(k));
    NextAhead(s, clock(k));
    if a in s.buffer {
      if a == MAX_SEQ {
        assert forall x :: x in s.buffer ==> x == MAX_SEQ;
        assert n.state.buffer == map[];
        assert Drain(s, clock, k).state.buffer == map[];
      } else if s.buffer[a] == [] {
        assert a + 1 in s.buffer ==> StallsAt(s.buffer, a, a);
        forall q: u32 ensures StallsAt(s.buffer, a, q) ==> q == a {
        }
      } else {
        UnexpiredDrainStallsIff(n.state, clock, k + 1);
        if q :| StallsAt(s.buffer, a, q) {
          StallsFurtherOn(s.buffer, a, q);
          assert StallsAt(n.state.buffer, n.state.nextSeq, q);
        }
        if q :| StallsAt(n.state.buffer, n.state.nextSeq, q) {
          StallsFurtherOn(s.buffer, a, q);
          assert StallsAt(s.buffer, a, q);
        }
      }
    }
  }

  /**
   Exactly when a drain loop ends although a frame is ready: when it runs into an empty frame, which looks
   like nil to the loop, and the frame after that is buffered.  `Ahead` holds in every run.
   */
  lemma {:induction false} DrainStallsIff(s: State, clock: nat -> int, k: nat)
    requires Ahead(s)
    ensures var d := Drain(s, clock, k).state;
            d.nextSeq in d.buffer <==> Stalls(s.buffer, First(s, clock(k)))
  {
    if Expires(s, clock(k)) {
      var at := State(Lowest(s.buffer), s.buffer, Idle);
      ExpiryTakesLowest(s, clock(k));
      assert Drain(s, clock, k) == Drain(at, clock, k);
      UnexpiredDrainStallsIff(at, clock, k);
    } else {
      UnexpiredDrainStallsIff(s, clock, k);
    }
  }

  /** It happens: insert an empty frame and the one after it; the drain consumes the first and leaves the second. */
  lemma {:induction false} EmptyFrameStallsDrain(q: u32, data: Bytes, clock: nat -> int)
    requires q < MAX_SEQ
    ensures var s := Run(q, [Ins(q, []), Ins(q + 1, data)]).state;
            var d := Drain(s, clock, 0);
            d.log == [Entry(q, [])] && d.state.nextSeq == q + 1 && d.state.buffer == map[q + 1 := data]
  {
    RunSnoc(q, [], Ins(q, []));
    RunSnoc(q, [Ins(q, [])], Ins(q + 1, data));
    assert [] + [Ins(q, [])] == [Ins(q, [])];
    assert [Ins(q, [])] + [Ins(q + 1, data)] == [Ins(q, []), Ins(q + 1, data)];
    assert Run(q, [Ins(q, []), Ins(q + 1, data)]).state == State(q, map[q := [], q + 1 := data], Idle);
  }

  /** No buffered frame is empty, so a nil from `Next` always means that nothing is ready. */
  predicate Full(s: State) {
    forall k :: k in s.buffer ==> s.buffer[k] != []
  }

  /** What one drain keeps: frames leave the buffer only by being delivered, in increasing order. */
  ghost predicate Conserves(s: State, s': State, log: seq<Entry>) {
    && (forall e :: e in log ==> e.num in s.buffer && e.data == s.buffer[e.num] && e.num !in s'.buffer)
    && (forall k :: k in s.buffer ==> Entry(k, s.buffer[k]) in log || (k in s'.buffer && s'.buffer[k] == s.buffer[k]))
    && s'.buffer.Keys <= s.buffer.Keys
    && (forall e, q :: e in log && q in s'.buffer ==> e.num < q)
    && Increasing(log)
  }

  lemma {:induction false} NextConserves(s: State, now: int)
    requires Ahead(s) && Full(s)
    ensures var n := Next(s, now);
            Ahead(n.state) && Full(n.state)
            && Conserves(s, n.state, if n.entry.Some? then [n.entry.value] else [])
  {
    NextAhead(s, now);
  }

  lemma {:induction false} ConservesTrans(a: State, b: State, c: State, l1: seq<Entry>, l2: seq<Entry>)
    requires Conserves(a, b, l1) && Conserves(b, c, l2)
    ensures Conserves(a, c, l1 + l2)
  {
    var log := l1 + l2;
    forall k | k in a.buffer ensures Entry(k, a.buffer[k]) in log || (k in c.buffer && c.buffer[k] == a.buffer[k]) {
      if Entry(k, a.buffer[k]) !in l1 {
        assert k in b.buffer && b.buffer[k] == a.buffer[k];
      }
    }
    forall i, j | 0 <= i < j < |log| ensures log[i].num < log[j].num {
      if i < |l1| <= j {
        assert log[i] in l1 && log[j] in l2;
      }
    }
  }

  // ------------------------------------------------------------------ counting gaps

  /** Frame `k` starts a contiguous run of buffered frames. */
  predicate StartsRun(m: map<u32, Bytes>, k: u32) {
    k in m && (k == 0 || k - 1 !in m)
  }

  /** The buffered frames that start a contiguous run which is not the one at `nextSeq`: one per gap. */
  ghost function GapStarts(s: State): set<u32> {
    set k | k in s.buffer && k != s.nextSeq && StartsRun(s.buffer, k)
  }

  ghost function Gaps(s: State): nat {
    |GapStarts(s)|
  }

  lemma {:induction false} TakeKeepsGaps(s: State)
    requires Ahead(s) && s.nextSeq in s.buffer
    ensures GapStarts(Take(s).state) == GapStarts(s)
  {
    var s' := Take(s).state;
    if s.nextSeq == MAX_SEQ {
      assert forall k :: k in s.buffer ==> k == MAX_SEQ;
    }
  }

  lemma {:induction false} ExpiryClosesOneGap(s: State, now: int)
    requires Ahead(s) && Expires(s, now)
    ensures Gaps(Next(s, now).state) == Gaps(s) - 1
  {
    ExpiryTakesLowest(s, now);
    var lo := Lowest(s.buffer);
    var at := State(lo, s.buffer, Idle);
    TakeKeepsGaps(at);
    assert lo == 0 || lo - 1 !in s.buffer;
    assert GapStarts(at) == GapStarts(s) - {lo};
  }

  lemma {:induction false} NoGapsMeansEmpty(s: State)
    requires Ahead(s) && s.nextSeq !in s.buffer
    ensures Gaps(s) == 0 <==> s.buffer == map[]
  {
    if s.buffer != map[] {
      var lo := Lowest(s.buffer);
      assert lo == 0 || lo - 1 !in s.buffer;
      assert lo in GapStarts(s);
    } else {
      assert GapStarts(s) == {};
    }
  }

  /** A drain stops with nothing ready, and frames leave the buffer only by being delivered. */
  lemma {:induction false} DrainConserves(s: State, clock: nat -> int, k: nat)
    requires Ahead(s) && Full(s)
    ensures var d := Drain(s, clock, k);
            && Ahead(d.state) && Full(d.state)
            && d.state.nextSeq !in d.state.buffer
            && Conserves(s, d.state, d.log)
    decreases s.buffer.Keys
  {
    var n := Next(s, clock(k));
    NextConserves(s, clock(k));
    if n.entry.Some? {
      DrainConserves(n.state, clock, k + 1);
      var d := Drain(n.state, clock, k + 1);
      ConservesTrans(s, n.state, d.state, [n.entry.value], d.log);
    }
  }

  lemma {:induction false} NextGaps(s: State, now: int)
    requires Ahead(s)
    ensures Gaps(Next(s, now).state) == Gaps(s) - (if Expires(s, now) then 1 else 0)
  {
    if Expires(s, now) {
      ExpiryClosesOneGap(s, now);
    } else if s.nextSeq in s.buffer {
      TakeKeepsGaps(s);
    } else {
      assert GapStarts(Next(s, now).state) == GapStarts(s);
    }
  }

  /** Exactly one gap is closed by a drain that finds the timer expired, and none by any other. */
  lemma {:induction false} DrainGaps(s: State, clock: nat -> int, k: nat)
    requires Ahead(s)
    ensures Gaps(Drain(s, clock, k).state) == Gaps(s) - (if Expires(s, clock(k)) then 1 else 0)
    decreases s.buffer.Keys
  {
    var n := Next(s, clock(k));
    NextGaps(s, clock(k));
    NextAhead(s, clock(k));
    if n.entry.Some? && n.entry.value.data != [] {
      assert n.state.timer == Idle;
      DrainGaps(n.state, clock, k + 1);
    }
  }

  /** The clock showed a time no earlier than `at` at one of its readings up to the n-th. */
  ghost predicate Reads(clock: nat -> int, at: int, n: nat) {
    exists c: nat :: c <= n && clock(c) >= at
  }

  lemma {:induction false} NextShrinks(s: State, now: int)
    ensures |Next(s, now).state.buffer| == |s.buffer| - (if Next(s, now).entry.Some? then 1 else 0)
  {
    NextTakesOne(s, now);
    var n := Next(s, now);
    if n.entry.Some? {
      WithoutOne(s.buffer, n.entry.value.num);
    }
  }

  /** If data remains after a drain the timer is running, since a reading of this drain or since before it. */
  lemma {:induction false} DrainTimer(s: State, clock: nat -> int, k: nat)
    requires Ahead(s) && Full(s)
    ensures var d := Drain(s, clock, k).state;
            d.buffer != map[] ==> d.timer.Since? && (Reads(clock, d.timer.at, k + |s.buffer|) || (d.timer == s.timer && !Expires(s, clock(k))))
    decreases s.buffer.Keys
  {
    var n := Next(s, clock(k));
    NextConserves(s, clock(k));
    assert clock(k) >= clock(k);
    NextShrinks(s, clock(k));
    if n.entry.Some? {
      assert n.state.timer == Idle;
      DrainTimer(n.state, clock, k + 1);
    }
  }

  // ------------------------------------------------------------------ progress over many drains

  /** The state, log and number of expiries after a sequence of drain loops with no insert between them. */
  datatype Ticked = Ticked(state: State, log: seq<Entry>, expiries: nat)

  ghost function Ticks(s: State, clocks: seq<nat -> int>): Ticked {
    if clocks == [] then Ticked(s, [], 0)
    else
      var t := Ticks(s, clocks[..|clocks| - 1]);
      var clock := clocks[|clocks| - 1];
      var d := Drain(t.state, clock, 0);
      Ticked(d.state, t.log + d.log, t.expiries + if Expires(t.state, clock(0)) then 1 else 0)
  }

  /** Conservation: with no further inserts, every expiry closes exactly one gap and nothing else does. */
  lemma {:induction false} ExpiriesCloseGaps(s: State, clocks: seq<nat -> int>)
    requires Ahead(s) && Full(s)
    ensures var t := Ticks(s, clocks);
            && Ahead(t.state) && Full(t.state)
            && Gaps(t.state) + t.expiries == Gaps(s)
            && Conserves(s, t.state, t.log)
            && (clocks != [] ==> t.state.nextSeq !in t.state.buffer)
            && (clocks != [] ==> (t.state.buffer == map[] <==> t.expiries == Gaps(s)))
  {
    if clocks != [] {
      var before := clocks[..|clocks| - 1];
      var clock := clocks[|clocks| - 1];
      ExpiriesCloseGaps(s, before);
      var t := Ticks(s, before);
      DrainConserves(t.state, clock, 0);
      DrainGaps(t.state, clock, 0);
      ConservesTrans(s, t.state, Drain(t.state, clock, 0).state, t.log, Drain(t.state, clock, 0).log);
      NoGapsMeansEmpty(Ticks(s, clocks).state);
    }
  }

  /** The first n + 1 readings of the clock come at least the gap timeout before `at`. */
  ghost predicate WellBefore(clock: nat -> int, at: int, n: nat) {
    forall c: nat :: c <= n ==> clock(c) + GAP_TIMEOUT <= at
  }

  /**
   Each drain begins at least the gap timeout after every clock reading of the drains before it; a drain of a
   buffer with n frames reads the clock at most n + 1 times.
   */
  ghost predicate Spaced(clocks: seq<nat -> int>, n: nat) {
    forall i, j :: 0 <= i < j < |clocks| ==> WellBefore(clocks[i], clocks[j](0), n)
  }

  lemma {:induction false} DrainCalls(s: State, clock: nat -> int, k: nat)
    ensures Drain(s, clock, k).calls <= |s.buffer| + 1
    decreases s.buffer.Keys
  {
    var n := Next(s, clock(k));
    NextShrinks(s, clock(k));
    if n.entry.Some? && n.entry.value.data != [] {
      DrainCalls(n.state, clock, k + 1);
    }
  }

  lemma {:induction false} SmallerBuffer(a: map<u32, Bytes>, b: map<u32, Bytes>)
    requires a.Keys <= b.Keys
    ensures |a| <= |b|
  {
    assert b.Keys == a.Keys + (b.Keys - a.Keys);
    assert |a| == |a.Keys| && |b| == |b.Keys|;
  }

  /** Data that survived drains has cost `need` expiries, and the timer runs since a reading of the last clock. */
  ghost predicate Paid(state: State, expiries: nat, clock: nat -> int, n: nat, need: int) {
    state.buffer != map[] ==> expiries >= need && state.timer.Since? && Reads(clock, state.timer.at, n)
  }

  lemma {:induction false} FirstDrainPays(s: State, clock: nat -> int)
    requires Ahead(s) && Full(s) && (s.timer.Since? ==> s.timer.at <= clock(0))
    ensures Paid(Drain(s, clock, 0).state, 0, clock, |s.buffer|, 0)
  {
    DrainTimer(s, clock, 0);
  }

  lemma {:induction false} NextDrainPays(s: State, expiries: nat, last: nat -> int, clock: nat -> int, n: nat, need: nat)
    requires Ahead(s) && Full(s) && s.nextSeq !in s.buffer && |s.buffer| <= n
    requires Paid(s, expiries, last, n, need) && WellBefore(last, clock(0), n)
    ensures Paid(Drain(s, clock, 0).state, expiries + (if Expires(s, clock(0)) then 1 else 0), clock, n, need + 1)
  {
    DrainConserves(s, clock, 0);
    DrainTimer(s, clock, 0);
    if s.buffer != map[] {
      OldTimerExpires(s, last, clock(0), n);
    }
  }

  /** Data that survives a spaced sequence of drains has cost one expiry for every drain but the first. */
  lemma {:induction false} SpacedDrainsProgress(s: State, clocks: seq<nat -> int>)
    requires Ahead(s) && Full(s) && clocks != [] && Spaced(clocks, |s.buffer|)
    requires s.timer.Since? ==> s.timer.at <= clocks[0](0)
    ensures var t := Ticks(s, clocks); Paid(t.state, t.expiries, clocks[|clocks| - 1], |s.buffer|, |clocks| - 1)
  {
    if |clocks| == 1 {
      FirstDrainPays(s, clocks[0]);
      TicksOnce(s, clocks);
    } else {
      SpacedPrefix(clocks, |s.buffer|);
      SpacedDrainsProgress(s, clocks[..|clocks| - 1]);
      SpacedOnceMore(s, clocks);
    }
  }

  lemma {:induction false} TicksOnce(s: State, clocks: seq<nat -> int>)
    requires |clocks| == 1
    ensures Ticks(s, clocks).state == Drain(s, clocks[0], 0).state
  {
    assert clocks[..0] == [];
  }

  lemma {:induction false} SpacedOnceMore(s: State, clocks: seq<nat -> int>)
    requires Ahead(s) && Full(s) && |clocks| > 1
    requires var last := |clocks| - 1; WellBefore(clocks[..last][last - 1], clocks[last](0), |s.buffer|)
    requires var before := clocks[..|clocks| - 1];
             Paid(Ticks(s, before).state, Ticks(s, before).expiries, before[|before| - 1], |s.buffer|, |before| - 1)
    ensures var t := Ticks(s, clocks); Paid(t.state, t.expiries, clocks[|clocks| - 1], |s.buffer|, |clocks| - 1)
  {
    var last := |clocks| - 1;
    var t := Ticks(s, clocks[..last]);
    ExpiriesCloseGaps(s, clocks[..last]);
    SmallerBuffer(t.state.buffer, s.buffer);
    NextDrainPays(t.state, t.expiries, clocks[..last][last - 1], clocks[last], |s.buffer|, last - 1);
  }

  lemma {:induction false} SpacedPrefix(clocks: seq<nat -> int>, n: nat)
    requires Spaced(clocks, n) && |clocks| > 1
    ensures var last := |clocks| - 1;
            Spaced(clocks[..last], n) && WellBefore(clocks[..last][last - 1], clocks[last](0), n)
  {
    assert forall i :: 0 <= i < |clocks| - 1 ==> clocks[..|clocks| - 1][i] == clocks[i];
  }

  lemma {:induction false} OldTimerExpires(s: State, clock: nat -> int, now: int, n: nat)
    requires s.buffer != map[] && s.nextSeq !in s.buffer && s.timer.Since?
    requires Reads(clock, s.timer.at, n) && WellBefore(clock, now, n)
    ensures Expires(s, now)
  {
  }

  /**
   Progress.  With no further inserts, a buffer with G gaps is fully delivered, in increasing order and
   without loss, by one drain followed by G drains that each find the timer expired.
   */
  lemma {:induction false} GapsAreEventuallyPassed(s: State, clocks: seq<nat -> int>)
    requires Ahead(s) && Full(s) && Spaced(clocks, |s.buffer|) && |clocks| == Gaps(s) + 1
    requires s.timer.Since? ==> s.timer.at <= clocks[0](0)
    ensures var t := Ticks(s, clocks);
            && t.state.buffer == map[]
            && t.expiries == Gaps(s)
            && Increasing(t.log)
            && (forall k :: k in s.buffer ==> Entry(k, s.buffer[k]) in t.log)
            && (forall e :: e in t.log ==> e.num in s.buffer && e.data == s.buffer[e.num])
  {
    ExpiriesCloseGaps(s, clocks);
    SpacedDrainsProgress(s, clocks);
  }
}
