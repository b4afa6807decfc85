/**
 One connection's state on the central server, as the object its handlers share.  Each method is one critical
 section together with the pushes its caller makes afterwards, run without another handler in between.
 */
module ConnStateImpl {
  import opened Basics
  import opened Lists
  import opened Reorder
  import opened ReorderGaps
  import opened ReordererImpl
  import opened Server
  import opened WriteQueue
  import Failover
  import opened Sending

  lemma {:induction false} ChunksAreNonEmpty(log: seq<Entry>)
    ensures Chunks(log) == Payloads(NonEmpty(log))
  {
    if log != [] {
      ChunksAreNonEmpty(log[..|log| - 1]);
    }
  }

  lemma {:induction false} PayloadsConcat(a: seq<Entry>, b: seq<Entry>)
    ensures Payloads(a + b) == Payloads(a) + Payloads(b)
  {
  }

  class ConnState {
    const id: u32
    const reorderer: Reorderer
    const created: int
    var txSeq: u32
    var sources: seq<Source>
    var sourceIdx: nat
    var connected: bool
    var queueOpen: bool
    var cancelled: bool
    var lastActive: int
    var writeCh: seq<Bytes>

    /** The position among all states ever created, whether it has left the table, and three histories. */
    ghost const handle: nat
    ghost var leaving: bool
    ghost var upstream: seq<Bytes>
    ghost var queued: seq<Entry>
    ghost var pushed: seq<Entry>

    ghost predicate Valid()
      reads this, reorderer
    {
      reorderer.Valid() && reorderer.owner == handle && writeCh == Payloads(queued)
    }

    ghost function View(): Conn
      reads this, reorderer
    {
      Conn(id, reorderer.start, reorderer.hist, sources, sourceIdx, txSeq, upstream, connected, queueOpen,
           leaving, cancelled, created, lastActive, [], queued, pushed, false)
    }

    constructor (id: u32, num: u32, src: Source, now: int, ghost handle: nat)
      ensures Valid() && fresh(reorderer) && this.handle == handle && this.id == id
      ensures View() == NewConn(id, num, src, now)
    {
      this.id, this.handle, created, lastActive := id, handle, now, now;
      reorderer := new Reorderer(Inc(num), handle);
      txSeq, sources, sourceIdx, connected, queueOpen, cancelled := 0, [src], 0, false, false, false;
      leaving, writeCh, upstream, queued, pushed := false, [], [], [], [];
    }

    /** Non-blocking sends of the drained chunks to the write channel. */
    method PushChunks(chunks: seq<Bytes>, ghost batch: seq<Entry>)
      requires writeCh == Payloads(queued) && chunks == Payloads(batch)
      modifies this`writeCh, this`queued, this`pushed
      ensures writeCh == Payloads(queued)
      ensures queued == old(queued) + Offer(old(queued), batch) && pushed == old(pushed) + Offer(old(queued), batch)
    {
      ghost var all := Offer(queued, batch);
      ghost var taken: seq<Entry> := [];
      for i := 0 to |chunks|
        invariant writeCh == Payloads(queued) && all == taken + Offer(queued, batch[i..])
        invariant queued == old(queued) + taken && pushed == old(pushed) + taken
      {
        assert batch[i..][1..] == batch[i + 1..];
        if |writeCh| < QUEUE_CAPACITY {
          PayloadsConcat(queued, [batch[i]]);
          assert taken + ([batch[i]] + Offer(queued + [batch[i]], batch[i + 1..])) == (taken + [batch[i]]) + Offer(queued + [batch[i]], batch[i + 1..]);
          writeCh := writeCh + [chunks[i]];
          queued, pushed, taken := queued + [batch[i]], pushed + [batch[i]], taken + [batch[i]];
        }
      }
    }

    /** Drain the reorderer and push what came out. */
    method DrainAndPush(clock: nat -> int)
      requires Valid()
      modifies this`writeCh, this`queued, this`pushed, reorderer
      ensures Valid() && View() == Settled(OnDrain(old(View()), clock))
    {
      ghost var was := View();
      ghost var log := Drain(Buffer(was), clock, 0).log;
      ghost var batch := NonEmpty(log);
      var chunks := reorderer.DrainAll(clock);
      ChunksAreNonEmpty(log);
      PushChunks(chunks, batch);
      assert Pending(OnDrain(was, clock)) == batch;
    }

    method HandleData(src: Source, num: u32, data: Bytes, now: int, clock: nat -> int)
      requires Valid()
      modifies this`sources, this`lastActive, this`writeCh, this`queued, this`pushed, reorderer
      ensures Valid() && View() == Settled(OnData(old(View()), src, num, data, now, clock))
    {
      ghost var was := View();
      var found := false;
      for i := 0 to |sources|
        invariant found <==> src in sources[..i]
      {
        assert sources[..i + 1] == sources[..i] + [sources[i]];
        if sources[i] == src {
          found := true;
        }
      }
      assert sources[..|sources|] == sources;
      if !found {
        sources := sources + [src];
      }
      lastActive := now;
      reorderer.Insert(num, data);
      ghost var inserted := View();
      SettledIdle(inserted);
      if !queueOpen {
        return;
      }
      DrainAndPush(clock);
    }

    /** The upstream connection is up: flush what arrived before. */
    method UpstreamReady(clock: nat -> int)
      requires Valid()
      modifies this`connected, this`queueOpen, this`writeCh, this`queued, this`pushed, reorderer
      ensures Valid() && View() == Settled(OnReady(old(View()), clock))
    {
      connected, queueOpen := true, true;
      writeCh, queued := [], [];
      DrainAndPush(clock);
    }

    method HandleFin(clock: nat -> int)
      requires Valid()
      modifies this`queueOpen, this`writeCh, this`queued, this`pushed, reorderer
      ensures Valid() && View() == Settled(OnFin(old(View()), clock))
    {
      SettledIdle(View());
      if queueOpen {
        DrainAndPush(clock);
      }
      queueOpen := false;
      SettledIdle(View());
    }

    /** A chunk read from upstream takes the next reverse number. */
    method NextSeq(data: Bytes, now: int) returns (num: u32)
      requires Valid()
      modifies this`txSeq, this`upstream, this`lastActive
      ensures Valid() && num == old(txSeq) && View() == OnUpstream(old(View()), data, now)
    {
      num := txSeq;
      txSeq := Inc(txSeq);
      upstream := upstream + [data];
      lastActive := now;
    }

    /** Remove the first occurrence of a source, shifting the rest down. */
    method DropSource(src: Source)
      requires Valid()
      modifies this`sources
      ensures Valid() && View() == OnDrop(old(View()), src)
    {
      for i := 0 to |sources|
        invariant sources == old(sources) && src !in sources[..i]
      {
        if sources[i] == src {
          RemoveFirstAt(sources, src, i);
          sources := sources[..i] + sources[i + 1..];
          return;
        }
      }
      assert sources[..|sources|] == sources;
    }

    /** Send one frame: try the sources in rotation, dropping those whose write fails. */
    method SendFrame(works: set<Source>) returns (via: Option<Source>)
      requires Valid()
      modifies this`sources, this`sourceIdx
      ensures Valid()
      ensures var o := SendOn(old(View()), works); via == o.via && View() == o.conn
    {
      var n := |sources|;
      if n == 0 {
        return None;
      }
      var order := Failover.Rotated(sources, sourceIdx);
      sourceIdx := sourceIdx + 1;
      ghost var all := Failover.TryAll(order, works, sources);
      for i := 0 to n
        invariant sourceIdx == old(sourceIdx) + 1
        invariant all == Failover.TryAll(order[i..], works, sources)
        invariant View() == OnPick(old(View())).(sources := sources)
        invariant Valid()
      {
        if order[i] in works {
          return Some(order[i]);
        }
        assert order[i..][1..] == order[i + 1..];
        DropSource(order[i]);
      }
      return None;
    }
  }

  lemma {:induction false} SettledIdle(c: Conn)
    requires c.batches == []
    ensures Settled(c) == c
  {
    assert c.queue + [] == c.queue && c.pushed + [] == c.pushed;
  }

  lemma {:induction false} RemoveFirstAt(s: seq<Source>, x: Source, i: nat)
    requires i < |s| && s[i] == x && x !in s[..i]
    ensures RemoveFirst(s, x) == s[..i] + s[i + 1..]
  {
    if i > 0 {
      assert s[0] == s[..i][0];
      assert s[1..][..i - 1] == s[..i][1..];
      RemoveFirstAt(s[1..], x, i - 1);
      assert [s[0]] + (s[1..][..i - 1] + s[1..][i..]) == s[..i] + s[i + 1..];
    }
  }
}
