/**
 How the server sends one frame: the connection's sources are tried once each, in rotation order, until one
 accepts the frame; a source whose write fails is removed from the list.
 */
module Failover {
  import opened Basics
  import opened Modular
  import opened Lists

  /** The order in which a send with the given index tries the sources. */
  function Rotated<T>(sources: seq<T>, idx: nat): (order: seq<T>)
    ensures |order| == |sources|
  {
    var n := |sources|;
    seq(n, i requires 0 <= i < n => sources[Mod(Mod(idx, n) + i, n)])
  }

  datatype Sent<T> = Sent(via: Option<T>, sources: seq<T>)

  /** Try the sources in order; `works` are those whose write succeeds. */
  function TryAll<T(==)>(order: seq<T>, works: set<T>, sources: seq<T>): Sent<T>
    decreases |order|
  {
    if order == [] then Sent(None, sources)
    else if order[0] in works then Sent(Some(order[0]), sources)
    else TryAll(order[1..], works, RemoveFirst(sources, order[0]))
  }

  function Send<T(==)>(sources: seq<T>, idx: nat, works: set<T>): Sent<T> {
    TryAll(Rotated(sources, idx), works, sources)
  }

  lemma {:induction false} RotatedIsCut<T>(sources: seq<T>, idx: nat)
    requires sources != []
    ensures var k := Mod(idx, |sources|); Rotated(sources, idx) == sources[k..] + sources[..k]
  {
    var n, k := |sources|, Mod(idx, |sources|);
    var cut := sources[k..] + sources[..k];
    forall i | 0 <= i < n ensures Rotated(sources, idx)[i] == cut[i] {
      assert Mod(k + i, n) == if k + i < n then k + i else k + i - n;
    }
  }

  /** The rotation tries every source exactly as often as it is listed. */
  lemma {:induction false} RotationIsExhaustive<T>(sources: seq<T>, idx: nat)
    ensures multiset(Rotated(sources, idx)) == multiset(sources)
  {
    if sources != [] {
      RotatedIsCut(sources, idx);
      var k := Mod(idx, |sources|);
      assert sources == sources[..k] + sources[k..];
    }
  }

  lemma {:induction false} RemoveFirstMultiset<T>(s: seq<T>, x: T)
    ensures multiset(RemoveFirst(s, x)) == multiset(s) - multiset{x}
  {
    if s != [] {
      assert s == [s[0]] + s[1..];
      if s[0] != x {
        RemoveFirstMultiset(s[1..], x);
      }
    }
  }

  /** The number of sources tried in vain before one accepts or the order is exhausted. */
  function Failures<T(==)>(order: seq<T>, works: set<T>): (j: nat)
    ensures j <= |order| && (j < |order| ==> order[j] in works)
    ensures forall e :: 0 <= e < j ==> order[e] !in works
    decreases |order|
  {
    if order == [] || order[0] in works then 0 else Failures(order[1..], works) + 1
  }

  lemma {:induction false} MinusTwice<T>(a: multiset<T>, b: multiset<T>, c: multiset<T>)
    ensures a - b - c == a - (b + c)
  {
  }

  lemma {:induction false} TryAllVia<T>(order: seq<T>, works: set<T>, sources: seq<T>)
    ensures TryAll(order, works, sources).via
            == if Failures(order, works) < |order| then Some(order[Failures(order, works)]) else None
    decreases |order|
  {
    if order != [] && order[0] !in works {
      TryAllVia(order[1..], works, RemoveFirst(sources, order[0]));
    }
  }

  lemma {:induction false} TryAllLeaves<T>(order: seq<T>, works: set<T>, sources: seq<T>)
    ensures multiset(TryAll(order, works, sources).sources) == multiset(sources) - multiset(order[..Failures(order, works)])
    decreases |order|
  {
    if order == [] || order[0] in works {
      assert order[..0] == [];
    } else {
      var tail := order[1..][..Failures(order[1..], works)];
      TryAllLeaves(order[1..], works, RemoveFirst(sources, order[0]));
      RemoveFirstMultiset(sources, order[0]);
      MinusTwice(multiset(sources), multiset{order[0]}, multiset(tail));
      assert order[..Failures(order, works)] == [order[0]] + tail;
    }
  }

  /**
   Failover is exhaustive and single-delivery: the frame goes out over exactly one source, the first working
   one in rotation order; exactly the sources tried before it are removed; and the send fails only when no
   listed source works, in which case the list ends up empty.
   */
  lemma {:induction false} SendIsExhaustive<T>(sources: seq<T>, idx: nat, works: set<T>)
    ensures var order, r := Rotated(sources, idx), Send(sources, idx, works);
            var j := Failures(order, works);
            && r.via == (if j < |order| then Some(order[j]) else None)
            && multiset(r.sources) == multiset(sources) - multiset(order[..j])
            && (r.via.Some? <==> exists x :: x in sources && x in works)
            && (r.via.None? ==> r.sources == [])
  {
    var order, r := Rotated(sources, idx), Send(sources, idx, works);
    var j := Failures(order, works);
    TryAllVia(order, works, sources);
    TryAllLeaves(order, works, sources);
    RotationIsExhaustive(sources, idx);
    forall x ensures x in sources <==> x in order {
      assert x in multiset(sources) <==> x in multiset(order);
    }
    if j == |order| {
      assert order[..j] == order;
      assert |multiset(r.sources)| == 0;
    } else {
      assert order[j] in sources && order[j] in works;
    }
  }

  /** With every source working, the k-th of consecutive sends uses one source and leaves the list alone. */
  lemma {:induction false} WorkingSend<T>(sources: seq<T>, idx: nat, works: set<T>)
    requires sources != [] && forall x :: x in sources ==> x in works
    ensures Send(sources, idx, works) == Sent(Some(sources[Mod(idx, |sources|)]), sources)
  {
    var n, k := |sources|, Mod(idx, |sources|);
    assert Mod(k + 0, n) == k;
    assert Rotated(sources, idx)[0] == sources[k];
  }

  /** The list position that the m-th send after index `idx` starts from. */
  function PositionUsed(idx: nat, m: nat, n: nat): nat
    requires n > 0
  {
    Mod(idx + m, n)
  }

  /** The source that takes the frame of the m-th send after index `idx`. */
  function UsedBy<T(==)>(sources: seq<T>, idx: nat, m: nat, works: set<T>): Option<T> {
    Send(sources, idx + m, works).via
  }

  /**
   With n stable, working sources, any n consecutive sends use each of them exactly once: list position `i`
   is used by one and only one of the sends idx, idx+1, ..., idx+n-1, and so is the source listed there if no
   source is listed twice.
   */
  lemma {:induction false} ConsecutiveSendsUseEachOnce<T>(sources: seq<T>, idx: nat, works: set<T>, i: nat) returns (k: nat)
    requires i < |sources| && forall x :: x in sources ==> x in works
    ensures k < |sources| && Send(sources, idx + k, works) == Sent(Some(sources[i]), sources)
    ensures forall m: nat :: m < |sources| && PositionUsed(idx, m, |sources|) == i ==> m == k
    ensures Distinct(sources) ==> forall m: nat :: m < |sources| && UsedBy(sources, idx, m, works) == Some(sources[i]) ==> m == k
  {
    k := RotationMeets(idx, i, |sources|);
    WorkingSend(sources, idx + k, works);
    forall m: nat | m < |sources| && PositionUsed(idx, m, |sources|) == i ensures m == k {
      RotationOnce(idx, m, k, |sources|);
    }
    if Distinct(sources) {
      forall m: nat | m < |sources| && UsedBy(sources, idx, m, works) == Some(sources[i]) ensures m == k {
        WorkingSend(sources, idx + m, works);
        assert PositionUsed(idx, m, |sources|) == i;
      }
    }
  }
}
