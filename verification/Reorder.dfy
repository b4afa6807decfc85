/**
 The reorder buffer as a specification: what one `Insert` and one `Next` call do to a
 buffer, and what a whole run of such calls delivers.  The class `ReordererImpl.Reorderer`
 implements these functions; every theorem below is about runs of them.

 An empty payload stands for Go's nil slice, so a `Next` that consumes an empty frame
 looks to its caller like "nothing ready".
 */
module Reorder {
  import opened Basics

  /** Two seconds, in nanoseconds. */
  const GAP_TIMEOUT: int := 2_000_000_000

  datatype Timer = Idle | Since(at: int)

  datatype State = State(nextSeq: u32, buffer: map<u32, Bytes>, timer: Timer)

  /** One consumed frame. */
  datatype Entry = Entry(num: u32, data: Bytes)

  function Payloads(log: seq<Entry>): seq<Bytes> {
    seq(|log|, i requires 0 <= i < |log| => log[i].data)
  }

  datatype Taken = Taken(state: State, entry: Option<Entry>)

  function Init(start: u32): State {
    State(start, map[], Idle)
  }

  function Insert(s: State, num: u32, data: Bytes): State {
    if num < s.nextSeq then s else s.(buffer := s.buffer[num := data])
  }

  ghost function Lowest(m: map<u32, Bytes>): (lo: u32)
    requires m != map[]
    ensures lo in m && forall k :: k in m ==> lo <= k
  {
    LowestKeyExists(m);
    var k :| k in m && forall j :: j in m ==> k <= j;
    k
  }

  lemma {:induction false} LowestExists(ks: set<u32>) returns (lo: u32)
    requires ks != {}
    ensures lo in ks && forall j :: j in ks ==> lo <= j
    decreases |ks|
  {
    var x :| x in ks;
    var rest := ks - {x};
    lo := x;
    if rest != {} {
      var k := LowestExists(rest);
      lo := if x < k then x else k;
    }
    assert forall j :: j in ks ==> j == x || j in rest;
  }

  lemma {:induction false} LowestKeyExists(m: map<u32, Bytes>)
    requires m != map[]
    ensures exists k :: k in m && forall j :: j in m ==> k <= j
  {
    assert m.Keys != {};
    var lo := LowestExists(m.Keys);
    assert lo in m && forall j :: j in m ==> lo <= j;
  }

  /** Consume the frame at `nextSeq`. */
  function Take(s: State): Taken
    requires s.nextSeq in s.buffer
  {
    Taken(State(Inc(s.nextSeq), s.buffer - {s.nextSeq}, Idle),
          Some(Entry(s.nextSeq, s.buffer[s.nextSeq])))
  }

  /** The call `Next` at time `now` gives up on the missing frame. */
  predicate Expires(s: State, now: int) {
    s.nextSeq !in s.buffer && s.buffer != map[] && s.timer.Since? && now - s.timer.at >= GAP_TIMEOUT
  }

  ghost function SkipToLowest(s: State): State {
    if s.buffer != map[] && Lowest(s.buffer) > s.nextSeq then s.(nextSeq := Lowest(s.buffer)) else s
  }

  ghost function Next(s: State, now: int): Taken {
    if s.nextSeq in s.buffer then Take(s)
    else if s.buffer == map[] then Taken(s.(timer := Idle), None)
    else if s.timer.Idle? then Taken(s.(timer := Since(now)), None)
    else if now - s.timer.at < GAP_TIMEOUT then Taken(s, None)
    else
      var skipped := SkipToLowest(s).(timer := Idle);
      if skipped.nextSeq in skipped.buffer then Take(skipped) else Taken(skipped, None)
  }

  /** What the caller of `Next` sees: nil (empty) unless a non-empty frame was consumed. */
  function Value(entry: Option<Entry>): Bytes {
    if entry.Some? then entry.value.data else []
  }

  // ------------------------------------------------------------------ runs

  datatype Call = Ins(num: u32, data: Bytes) | Nxt(now: int)

  /** The buffer after a run, and every frame consumed so far, oldest first. */
  datatype Trace = Trace(state: State, log: seq<Entry>)

  ghost function Apply(t: Trace, e: Call): Trace {
    match e
    case Ins(num, data) => t.(state := Insert(t.state, num, data))
    case Nxt(now) =>
      var n := Next(t.state, now);
      Trace(n.state, if n.entry.Some? then t.log + [n.entry.value] else t.log)
  }

  ghost function Run(start: u32, evs: seq<Call>): Trace {
    if evs == [] then Trace(Init(start), [])
    else Apply(Run(start, evs[..|evs| - 1]), evs[|evs| - 1])
  }

  lemma {:induction false} RunSnoc(start: u32, evs: seq<Call>, e: Call)
    ensures Run(start, evs + [e]) == Apply(Run(start, evs), e)
  {
    assert (evs + [e])[..|evs|] == evs;
  }

  /** Buffered frames are never behind `nextSeq`. */
  predicate Ahead(s: State) {
    forall k :: k in s.buffer ==> s.nextSeq <= k
  }

  lemma {:induction false} NextAhead(s: State, now: int)
    requires Ahead(s)
    ensures Ahead(Next(s, now).state)
  {
  }

  /** With the frames ahead of `nextSeq`, an expiry always moves to the lowest buffered frame and consumes it. */
  lemma {:induction false} ExpiryTakesLowest(s: State, now: int)
    requires Ahead(s) && Expires(s, now)
    ensures var lo := Lowest(s.buffer);
            s.nextSeq < lo
            && Next(s, now) == Taken(State(Inc(lo), s.buffer - {lo}, Idle), Some(Entry(lo, s.buffer[lo])))
  {
  }

  lemma {:induction false} RunAhead(start: u32, evs: seq<Call>)
    ensures Ahead(Run(start, evs).state)
  {
    if evs != [] {
      RunAhead(start, evs[..|evs| - 1]);
      var e := evs[|evs| - 1];
      if e.Nxt? {
        NextAhead(Run(start, evs[..|evs| - 1]).state, e.now);
      }
    }
  }

  /** No call of the run gives up on a missing frame. */
  ghost predicate NoSkip(start: u32, evs: seq<Call>) {
    forall k :: 0 <= k < |evs| && evs[k].Nxt? ==> !Expires(Run(start, evs[..k]).state, evs[k].now)
  }

  predicate Increasing(log: seq<Entry>) {
    forall i, j :: 0 <= i < j < |log| ==> log[i].num < log[j].num
  }

  /** The wrap-around frame is consumed, if at all, as the last one. */
  predicate WrapsOnlyLast(log: seq<Entry>) {
    forall i :: 0 <= i < |log| - 1 ==> log[i].num != MAX_SEQ
  }

  /** What every run keeps as long as the frame number has not wrapped. */
  ghost predicate Ordered(start: u32, t: Trace) {
    && Ahead(t.state)
    && (forall i :: 0 <= i < |t.log| ==> start <= t.log[i].num)
    && Increasing(t.log)
    && (t.log == [] ==> t.state.nextSeq >= start)
    && (t.log != [] && t.log[|t.log| - 1].num != MAX_SEQ ==> t.state.nextSeq > t.log[|t.log| - 1].num)
  }

  lemma {:induction false} OrderedStep(start: u32, t: Trace, e: Call)
    requires Ordered(start, t)
    requires t.log != [] ==> t.log[|t.log| - 1].num != MAX_SEQ || Apply(t, e).log == t.log
    ensures Ordered(start, Apply(t, e))
  {
    if e.Nxt? {
      NextAhead(t.state, e.now);
      if Expires(t.state, e.now) {
        ExpiryTakesLowest(t.state, e.now);
      }
    }
  }

  lemma {:induction false} RunOrdered(start: u32, evs: seq<Call>)
    requires WrapsOnlyLast(Run(start, evs).log)
    ensures Ordered(start, Run(start, evs))
  {
    if evs != [] {
      var before := evs[..|evs| - 1];
      var t := Run(start, before);
      assert forall i :: 0 <= i < |t.log| ==> Run(start, evs).log[i] == t.log[i];
      RunOrdered(start, before);
      OrderedStep(start, t, evs[|evs| - 1]);
    }
  }

  /**
   In every run, whatever is inserted and whenever `Next` is called, frames are consumed in strictly
   increasing order exactly when the largest 32-bit number is consumed at most as the last frame.
   */
  lemma {:induction false} IncreasingIffNoWrap(start: u32, evs: seq<Call>)
    ensures Increasing(Run(start, evs).log) <==> WrapsOnlyLast(Run(start, evs).log)
  {
    var log := Run(start, evs).log;
    if WrapsOnlyLast(log) {
      RunOrdered(start, evs);
    }
    if Increasing(log) {
      forall i | 0 <= i < |log| - 1 ensures log[i].num != MAX_SEQ {
        assert log[i].num < log[i + 1].num;
      }
    }
  }

  /** The wrap-around at work: frame 0 is delivered after frame 2^32-1. */
  lemma {:induction false} WrapRedelivers(a: Bytes, b: Bytes)
    ensures var evs := [Ins(MAX_SEQ, a), Nxt(0), Ins(0, b), Nxt(0)];
            Run(MAX_SEQ, evs).log == [Entry(MAX_SEQ, a), Entry(0, b)]
            && !Increasing(Run(MAX_SEQ, evs).log)
  {
    RunSnoc(MAX_SEQ, [], Ins(MAX_SEQ, a));
    RunSnoc(MAX_SEQ, [Ins(MAX_SEQ, a)], Nxt(0));
    RunSnoc(MAX_SEQ, [Ins(MAX_SEQ, a), Nxt(0)], Ins(0, b));
    RunSnoc(MAX_SEQ, [Ins(MAX_SEQ, a), Nxt(0), Ins(0, b)], Nxt(0));
    assert [] + [Ins(MAX_SEQ, a)] == [Ins(MAX_SEQ, a)];
    assert [Ins(MAX_SEQ, a)] + [Nxt(0)] == [Ins(MAX_SEQ, a), Nxt(0)];
    assert [Ins(MAX_SEQ, a), Nxt(0)] + [Ins(0, b)] == [Ins(MAX_SEQ, a), Nxt(0), Ins(0, b)];
    assert [Ins(MAX_SEQ, a), Nxt(0), Ins(0, b)] + [Nxt(0)] == [Ins(MAX_SEQ, a), Nxt(0), Ins(0, b), Nxt(0)];
    var log := Run(MAX_SEQ, [Ins(MAX_SEQ, a), Nxt(0), Ins(0, b), Nxt(0)]).log;
    assert log[0].num > log[1].num;
  }

  // ------------------------------------------------------------------ provenance

  /** Every frame buffered or consumed was inserted with that number and payload. */
  ghost predicate FromInserts(t: Trace, evs: seq<Call>) {
    && (forall k :: k in t.state.buffer ==> Ins(k, t.state.buffer[k]) in evs)
    && (forall i :: 0 <= i < |t.log| ==> Ins(t.log[i].num, t.log[i].data) in evs)
  }

  lemma {:induction false} RunFromInserts(start: u32, evs: seq<Call>)
    ensures FromInserts(Run(start, evs), evs)
  {
    if evs != [] {
      var before := evs[..|evs| - 1];
      RunFromInserts(start, before);
      assert forall e :: e in before ==> e in evs;
      assert evs[|evs| - 1] in evs;
    }
  }

  /** What is buffered under a number is the payload inserted last. */
  lemma {:induction false} BufferHoldsLatest(start: u32, evs: seq<Call>, k: u32) returns (i: nat)
    requires k in Run(start, evs).state.buffer
    ensures i < |evs| && evs[i] == Ins(k, Run(start, evs).state.buffer[k])
    ensures forall j :: i < j < |evs| && evs[j].Ins? ==> evs[j].num != k
  {
    var n := |evs| - 1;
    var before, e := evs[..n], evs[n];
    if e.Ins? && e.num == k {
      NotBehind(start, before, e);
      i := n;
    } else {
      i := BufferHoldsLatest(start, before, k);
    }
  }

  /** A frame that is buffered right after the insert of its number is that insert. */
  lemma {:induction false} NotBehind(start: u32, before: seq<Call>, e: Call)
    requires e.Ins? && e.num in Run(start, before + [e]).state.buffer
    ensures Run(start, before + [e]).state.buffer[e.num] == e.data
  {
    RunSnoc(start, before, e);
    RunAhead(start, before);
  }

  // ------------------------------------------------------------------ runs without a gap timeout

  ghost predicate InsertedNum(evs: seq<Call>, num: u32) {
    exists i :: 0 <= i < |evs| && evs[i].Ins? && evs[i].num == num
  }

  ghost predicate NoMax(evs: seq<Call>) {
    !InsertedNum(evs, MAX_SEQ)
  }

  /** Without a timeout the log is the gap-free sequence from `start`, and nothing inserted later is lost. */
  ghost predicate Gapless(start: u32, t: Trace, evs: seq<Call>) {
    && t.state.nextSeq == start + |t.log|
    && (forall i :: 0 <= i < |t.log| ==> t.log[i].num == start + i)
    && (forall k :: k in t.state.buffer ==> InsertedNum(evs, k))
    && (forall i :: 0 <= i < |t.log| ==> InsertedNum(evs, t.log[i].num))
    && (forall q: u32 :: t.state.nextSeq <= q && InsertedNum(evs, q) ==> q in t.state.buffer)
  }

  lemma {:induction false} InsertedSnoc(evs: seq<Call>, e: Call, q: u32)
    ensures InsertedNum(evs + [e], q) <==> (InsertedNum(evs, q) || (e.Ins? && e.num == q))
  {
    var all := evs + [e];
    if InsertedNum(evs, q) {
      var i :| 0 <= i < |evs| && evs[i].Ins? && evs[i].num == q;
      assert all[i].Ins? && all[i].num == q;
    }
    if e.Ins? && e.num == q {
      assert all[|evs|].Ins? && all[|evs|].num == q;
    }
  }

  lemma {:induction false} GaplessStep(start: u32, t: Trace, evs: seq<Call>, e: Call)
    requires Gapless(start, t, evs) && FromInserts(t, evs) && Ahead(t.state)
    requires e.Nxt? ==> !Expires(t.state, e.now)
    requires NoMax(evs + [e])
    ensures Gapless(start, Apply(t, e), evs + [e])
  {
    forall q: u32 ensures InsertedNum(evs + [e], q) <==> (InsertedNum(evs, q) || (e.Ins? && e.num == q)) {
      InsertedSnoc(evs, e, q);
    }
  }

  lemma {:induction false} RunGapless(start: u32, evs: seq<Call>)
    requires NoSkip(start, evs) && NoMax(evs)
    ensures Gapless(start, Run(start, evs), evs)
  {
    if evs != [] {
      var before, e := evs[..|evs| - 1], evs[|evs| - 1];
      assert evs == before + [e];
      InsertedSnoc(before, e, MAX_SEQ);
      NoSkipPrefix(start, evs);
      RunGapless(start, before);
      RunAhead(start, before);
      RunFromInserts(start, before);
      GaplessStep(start, Run(start, before), before, e);
    }
  }

  lemma {:induction false} NoSkipPrefix(start: u32, evs: seq<Call>)
    requires NoSkip(start, evs) && evs != []
    ensures NoSkip(start, evs[..|evs| - 1])
    ensures evs[|evs| - 1].Nxt? ==> !Expires(Run(start, evs[..|evs| - 1]).state, evs[|evs| - 1].now)
  {
    var before := evs[..|evs| - 1];
    forall k | 0 <= k < |before| && before[k].Nxt? ensures !Expires(Run(start, before[..k]).state, before[k].now) {
      assert before[..k] == evs[..k] && before[k] == evs[k];
    }
  }

  /** The frames inserted by a run; a later payload for the same number replaces an earlier one. */
  ghost function Frames(evs: seq<Call>): map<u32, Bytes> {
    if evs == [] then map[]
    else
      var m := Frames(evs[..|evs| - 1]);
      var e := evs[|evs| - 1];
      if e.Ins? then m[e.num := e.data] else m
  }

  /** Duplicates of a frame carry the same payload. */
  ghost predicate Consistent(evs: seq<Call>) {
    forall i, j :: 0 <= i < |evs| && 0 <= j < |evs| && evs[i].Ins? && evs[j].Ins? && evs[i].num == evs[j].num
                   ==> evs[i].data == evs[j].data
  }

  lemma {:induction false} FramesAre(evs: seq<Call>)
    requires Consistent(evs)
    ensures forall q: u32 :: q in Frames(evs) <==> InsertedNum(evs, q)
    ensures forall i :: 0 <= i < |evs| && evs[i].Ins? ==> evs[i].num in Frames(evs) && Frames(evs)[evs[i].num] == evs[i].data
  {
    if evs != [] {
      var before, e := evs[..|evs| - 1], evs[|evs| - 1];
      assert evs == before + [e];
      FramesAre(before);
      forall q: u32 ensures InsertedNum(evs, q) <==> (InsertedNum(before, q) || (e.Ins? && e.num == q)) {
        InsertedSnoc(before, e, q);
      }
      forall i | 0 <= i < |evs| && evs[i].Ins?
        ensures evs[i].num in Frames(evs) && Frames(evs)[evs[i].num] == evs[i].data
      {
        if i < |before| {
          assert before[i] == evs[i];
        }
      }
    }
  }

  /** The reference: the maximal contiguous run of numbers from `start` in a set of frames. */
  ghost function Contiguous(start: nat, m: map<u32, Bytes>): seq<Entry>
    decreases m.Keys
  {
    if start < U32_MOD && start in m
    then [Entry(start, m[start])] + Contiguous(start + 1, m - {start})
    else []
  }

  lemma {:induction false} ContiguousIsMaximal(start: nat, m: map<u32, Bytes>)
    ensures var c := Contiguous(start, m);
            && (forall i :: 0 <= i < |c| ==> c[i].num == start + i && c[i].num in m && c[i].data == m[c[i].num])
            && (start + |c| < U32_MOD ==> start + |c| !in m)
    decreases m.Keys
  {
    if start < U32_MOD && start in m {
      ContiguousIsMaximal(start + 1, m - {start});
      var c, rest := Contiguous(start, m), Contiguous(start + 1, m - {start});
      assert forall i :: 0 < i < |c| ==> c[i] == rest[i - 1];
    }
  }

  /** A log that lists consecutive frames of `m` is a prefix of the maximal run, and all of it if it stops at a hole. */
  lemma {:induction false} PrefixOfContiguous(start: nat, m: map<u32, Bytes>, log: seq<Entry>)
    requires forall i :: 0 <= i < |log| ==> log[i].num == start + i && log[i].num in m && log[i].data == m[log[i].num]
    ensures log <= Contiguous(start, m)
    ensures start + |log| < U32_MOD && start + |log| !in m ==> log == Contiguous(start, m)
    decreases |log|
  {
    if log != [] {
      assert log[0].num == start;
      PrefixOfContiguous(start + 1, m - {start}, log[1..]);
      assert log == [log[0]] + log[1..];
    }
  }

  lemma {:induction false} LogMatchesFrames(start: u32, evs: seq<Call>)
    requires Consistent(evs)
    ensures forall e :: e in Run(start, evs).log ==> e.num in Frames(evs) && Frames(evs)[e.num] == e.data
  {
    RunFromInserts(start, evs);
    FramesAre(evs);
    forall e | e in Run(start, evs).log ensures e.num in Frames(evs) && Frames(evs)[e.num] == e.data {
      assert Ins(e.num, e.data) in evs;
      var k :| 0 <= k < |evs| && evs[k] == Ins(e.num, e.data);
    }
  }

  /**
   Refinement.  In every run without a gap timeout, for every permutation of the frames, every duplication
   and every interleaving of inserts and drains, what was consumed is a prefix of the maximal contiguous run
   of inserted frames; and once `Next` has nothing ready it is exactly that run.
   */
  lemma {:induction false} RefinesContiguous(start: u32, evs: seq<Call>)
    requires NoSkip(start, evs) && NoMax(evs) && Consistent(evs)
    ensures var t := Run(start, evs);
            var c := Contiguous(start, Frames(evs));
            t.log <= c && (t.log == c <==> t.state.nextSeq !in t.state.buffer)
  {
    RunGapless(start, evs);
    LogMatchesFrames(start, evs);
    FramesAre(evs);
    PrefixOfContiguous(start, Frames(evs), Run(start, evs).log);
    ContiguousIsMaximal(start, Frames(evs));
  }

  /** Confluence: two timeout-free runs that inserted the same frames and are both drained consumed the same log. */
  lemma {:induction false} Confluence(start: u32, a: seq<Call>, b: seq<Call>)
    requires NoSkip(start, a) && NoMax(a) && Consistent(a)
    requires NoSkip(start, b) && NoMax(b) && Consistent(b)
    requires Frames(a) == Frames(b)
    requires Run(start, a).state.nextSeq !in Run(start, a).state.buffer
    requires Run(start, b).state.nextSeq !in Run(start, b).state.buffer
    ensures Run(start, a).log == Run(start, b).log
  {
    RefinesContiguous(start, a);
    RefinesContiguous(start, b);
  }
}
