/**
 Sends over a connection's sources, one after the other.  A send advances the connection's rotation and drops the
 sources whose write failed; what follows is about the connection that one send leaves for the next.
 */
module Sending {
  import opened Basics
  import opened Lists
  import opened Modular
  import opened Failover
  import opened Server
  import opened Dispatching

  datatype Outcome = Outcome(via: Option<Source>, conn: Conn)

  /** One frame leaves, or all sources fail; `works` are those whose write succeeds. */
  function SendOn(c: Conn, works: set<Source>): Outcome {
    var sent := Send(c.sources, c.sourceIdx, works);
    Outcome(sent.via, OnPick(c).(sources := sent.sources))
  }

  function AfterSends(c: Conn, works: set<Source>, m: nat): Conn {
    if m == 0 then c else SendOn(AfterSends(c, works, m - 1), works).conn
  }

  /** The source that takes the frame of the m-th send. */
  function Taker(c: Conn, works: set<Source>, m: nat): Option<Source> {
    SendOn(AfterSends(c, works, m), works).via
  }

  lemma {:induction false} SendMovesOn(c: Conn, works: set<Source>)
    requires c.sources != [] && forall x :: x in c.sources ==> x in works
    ensures SendOn(c, works).conn.sources == c.sources && SendOn(c, works).conn.sourceIdx == c.sourceIdx + 1
  {
    WorkingSend(c.sources, c.sourceIdx, works);
  }

  lemma {:induction false} SendsMoveOn(c: Conn, works: set<Source>, m: nat)
    requires c.sources != [] && forall x :: x in c.sources ==> x in works
    ensures AfterSends(c, works, m).sources == c.sources && AfterSends(c, works, m).sourceIdx == c.sourceIdx + m
  {
    if m > 0 {
      SendsMoveOn(c, works, m - 1);
      SendMovesOn(AfterSends(c, works, m - 1), works);
    }
  }

  /**
   The server rotates: of as many consecutive sends on a connection as it has sources, all distinct and working,
   each source takes exactly one, wherever the rotation stands; and the list of sources stays as it is.
   */
  lemma {:induction false} EachSourceTakesOne(c: Conn, works: set<Source>, x: Source) returns (k: nat)
    requires x in c.sources && Distinct(c.sources) && forall y :: y in c.sources ==> y in works
    ensures k < |c.sources| && Taker(c, works, k) == Some(x)
    ensures forall m: nat :: m < |c.sources| && Taker(c, works, m) == Some(x) ==> m == k
    ensures AfterSends(c, works, |c.sources|).sources == c.sources
  {
    var i :| 0 <= i < |c.sources| && c.sources[i] == x;
    k := RotationMeets(c.sourceIdx, i, |c.sources|);
    TakerIs(c, works, k);
    forall m: nat | m < |c.sources| && Taker(c, works, m) == Some(x) ensures m == k {
      TakersDiffer(c, works, m, k);
    }
    SendsMoveOn(c, works, |c.sources|);
  }

  lemma {:induction false} TakerIs(c: Conn, works: set<Source>, m: nat)
    requires c.sources != [] && forall x :: x in c.sources ==> x in works
    ensures Taker(c, works, m) == Some(c.sources[PositionUsed(c.sourceIdx, m, |c.sources|)])
  {
    SendsMoveOn(c, works, m);
    WorkingSend(c.sources, c.sourceIdx + m, works);
  }

  lemma {:induction false} TakersDiffer(c: Conn, works: set<Source>, m: nat, k: nat)
    requires c.sources != [] && Distinct(c.sources) && forall x :: x in c.sources ==> x in works
    requires m < |c.sources| && k < |c.sources| && Taker(c, works, m) == Taker(c, works, k)
    ensures m == k
  {
    TakerIs(c, works, m);
    TakerIs(c, works, k);
    RotationOnce(c.sourceIdx, m, k, |c.sources|);
  }

  /** With some source working, a send succeeds, drops only sources that failed, and keeps every one that works. */
  lemma {:induction false} WorkingSourcesStay(c: Conn, works: set<Source>)
    ensures var o := SendOn(c, works);
            && (o.via.Some? <==> exists x :: x in c.sources && x in works)
            && (o.via.Some? ==> o.via.value in c.sources && o.via.value in works)
            && (forall x :: x in c.sources && x in works ==> x in o.conn.sources)
            && (forall x :: x in o.conn.sources ==> x in c.sources)
  {
    var order, r := Rotated(c.sources, c.sourceIdx), Send(c.sources, c.sourceIdx, works);
    var j := Failures(order, works);
    SendIsExhaustive(c.sources, c.sourceIdx, works);
    RotationIsExhaustive(c.sources, c.sourceIdx);
    forall x ensures x in order <==> x in c.sources {
      assert x in multiset(order) <==> x in multiset(c.sources);
    }
    forall x | x in c.sources && x in works ensures x in r.sources {
      assert x !in order[..j];
      assert x in multiset(r.sources);
    }
    forall x | x in r.sources ensures x in c.sources {
      assert x in multiset(r.sources);
    }
  }

  // ------------------------------------------------------------------ as steps of the server

  function DropAll(c: Conn, xs: seq<Source>): Conn
    decreases |xs|
  {
    if xs == [] then c else DropAll(OnDrop(c, xs[0]), xs[1..])
  }

  lemma {:induction false} DropAllSources(c: Conn, order: seq<Source>, works: set<Source>)
    ensures DropAll(c, order[..Failures(order, works)]) == c.(sources := TryAll(order, works, c.sources).sources)
    decreases |order|
  {
    if order == [] || order[0] in works {
      assert order[..0] == [];
    } else {
      var j := Failures(order, works);
      DropAllSources(OnDrop(c, order[0]), order[1..], works);
      assert order[..j][1..] == order[1..][..j - 1];
    }
  }

  lemma {:induction false} DropSteps(s: Server, h: nat, xs: seq<Source>) returns (es: seq<Event>)
    requires Lifecycle(s) && h < |s.heap|
    ensures Steps(s, es) == Some(Update(s, h, DropAll(s.heap[h], xs)))
    decreases |xs|
  {
    if xs == [] {
      es := [];
      assert s.heap[h := s.heap[h]] == s.heap;
    } else {
      var s1 := Apply(s, Drop(h, xs[0]));
      LifecycleStep(s, Drop(h, xs[0]));
      var rest := DropSteps(s1, h, xs[1..]);
      es := [Drop(h, xs[0])] + rest;
      assert es[1..] == rest;
      var last := DropAll(s.heap[h], xs);
      assert s1.heap[h := last] == s.heap[h := last];
    }
  }

  /** A send is a run of the state machine: one step takes the snapshot, and one drops each source that failed. */
  lemma {:induction false} SendIsARun(s: Server, h: nat, works: set<Source>) returns (es: seq<Event>)
    requires Lifecycle(s) && h < |s.heap|
    ensures Steps(s, es) == Some(Update(s, h, SendOn(s.heap[h], works).conn))
  {
    var c := s.heap[h];
    var order := Rotated(c.sources, c.sourceIdx);
    var s1 := Apply(s, Pick(h));
    LifecycleStep(s, Pick(h));
    DropAllSources(OnPick(c), order, works);
    var rest := DropSteps(s1, h, order[..Failures(order, works)]);
    es := [Pick(h)] + rest;
    assert es[1..] == rest;
    var last := SendOn(c, works).conn;
    assert s1.heap[h := last] == s.heap[h := last];
  }
}
