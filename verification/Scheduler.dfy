/**
 Weighted round-robin.  Two implementations exist: the splitter's, which skips unhealthy instances and keeps
 the weights computed at construction, and the balancer's, which recomputes the weights on every pick.
 Instances are identified by their position in the list.
 */
module Scheduler {
  import opened Basics
  import opened Modular

  const MAX_INT64: int := 0x7FFF_FFFF_FFFF_FFFF
  type int64 = x: int | -0x8000_0000_0000_0000 <= x <= 0x7FFF_FFFF_FFFF_FFFF

  /** What the scheduler and the pool know of an engine instance. */
  datatype Instance = Instance(id: nat, healthy: bool, ping: int64, ssh: bool)

  // ------------------------------------------------------------------ weights

  function MaxPing(insts: seq<Instance>): (m: int64)
    ensures 1 <= m
    ensures forall i :: 0 <= i < |insts| ==> insts[i].ping <= m
    ensures m == 1 || exists i :: 0 <= i < |insts| && insts[i].ping == m
  {
    if insts == [] then 1
    else
      var m := MaxPing(insts[..|insts| - 1]);
      var p := insts[|insts| - 1].ping;
      if p > m then p else m
  }

  function WeightOf(maxPing: int64, ping: int64): (w: nat)
    requires 1 <= maxPing && 1 <= ping
    ensures w >= 1
  {
    if maxPing / ping < 1 then 1 else maxPing / ping
  }

  /** An instance that was never measured counts as the slowest one. */
  function SplitterWeights(insts: seq<Instance>): (ws: seq<nat>)
    ensures |ws| == |insts|
  {
    var m := MaxPing(insts);
    seq(|insts|, i requires 0 <= i < |insts| => WeightOf(m, if insts[i].ping <= 0 then m else insts[i].ping))
  }

  /** An instance that was never measured counts as having an enormous ping. */
  function BalancerWeights(insts: seq<Instance>): (ws: seq<nat>)
    ensures |ws| == |insts|
  {
    var m := MaxPing(insts);
    seq(|insts|, i requires 0 <= i < |insts| => WeightOf(m, if insts[i].ping <= 0 then MAX_INT64 / 2 else insts[i].ping))
  }

  lemma {:induction false} DivideByLess(m: nat, a: nat, b: nat)
    requires 0 < a <= b
    ensures m / b <= m / a
  {
    var x, y := m / b, m / a;
    MulAtLeast(x - y, a);
    ScaleUp(x, a, b);
    assert y * a + a > m;
    assert (x - y) * a == x * a - y * a;
  }

  lemma {:induction false} ScaleUp(x: nat, a: nat, b: nat)
    requires a <= b
    ensures x * a <= x * b
  {
    assert x * (b - a) >= 0;
    assert x * b == x * a + x * (b - a);
  }

  /** Faster instances never weigh less, an unmeasured or slowest one weighs exactly one. */
  lemma {:induction false} FasterWeighsMore(insts: seq<Instance>, i: nat, j: nat)
    requires i < |insts| && j < |insts| && 0 < insts[i].ping
    ensures 0 < insts[j].ping && insts[i].ping <= insts[j].ping ==> SplitterWeights(insts)[i] >= SplitterWeights(insts)[j]
    ensures insts[j].ping <= 0 || insts[j].ping == MaxPing(insts) ==> SplitterWeights(insts)[j] == 1
  {
    var m := MaxPing(insts);
    assert SplitterWeights(insts)[i] == WeightOf(m, insts[i].ping);
    assert SplitterWeights(insts)[j] == WeightOf(m, if insts[j].ping <= 0 then m else insts[j].ping);
    if 0 < insts[j].ping && insts[i].ping <= insts[j].ping {
      WeightMonotone(m, insts[i].ping, insts[j].ping);
    }
    SlowestWeighsOne(m);
  }

  lemma {:induction false} WeightMonotone(m: int64, a: int64, b: int64)
    requires 1 <= m && 0 < a <= b
    ensures WeightOf(m, a) >= WeightOf(m, b)
  {
    DivideByLess(m, a, b);
  }

  lemma {:induction false} SlowestWeighsOne(m: int64)
    requires 1 <= m
    ensures WeightOf(m, m) == 1
  {
  }

  /** The whole number of times the ping of instance `i` fits into the largest ping. */
  predicate WeighsAs(ws: seq<nat>, insts: seq<Instance>, i: nat)
    requires i < |ws| == |insts|
  {
    ws[i] * insts[i].ping <= MaxPing(insts) < (ws[i] + 1) * insts[i].ping
  }

  lemma {:induction false} QuotientBounds(m: nat, p: nat)
    requires 1 <= p <= m
    ensures var w := m / p; w * p <= m < (w + 1) * p && w >= 1
  {
    MulAtLeast(m / p, p);
  }

  /**
   What a weight is: for a measured instance, in both schedulers, the whole number of times its ping fits into the
   largest one; an instance that was never measured weighs one in the splitter.
   */
  lemma {:induction false} WeightIsRatio(insts: seq<Instance>, i: nat)
    requires i < |insts|
    ensures insts[i].ping > 0 ==> WeighsAs(SplitterWeights(insts), insts, i) && WeighsAs(BalancerWeights(insts), insts, i)
    ensures insts[i].ping <= 0 ==> SplitterWeights(insts)[i] == 1
    ensures insts[i].ping <= 0 ==> BalancerWeights(insts)[i] == if MaxPing(insts) < LIMIT then 1 else 2
  {
    var m := MaxPing(insts);
    SlowestWeighsOne(m);
    if insts[i].ping > 0 {
      QuotientBounds(m, insts[i].ping);
    } else {
      UnmeasuredWeight(m);
    }
  }

  lemma {:induction false} UnmeasuredWeight(m: int64)
    requires 1 <= m
    ensures WeightOf(m, MAX_INT64 / 2) == if m < LIMIT then 1 else 2
  {
  }

  const LIMIT: int := 2 * (MAX_INT64 / 2)

  lemma {:induction false} WeightAgrees(maxPing: int64, ping: int64)
    requires 1 <= maxPing
    ensures WeightOf(maxPing, if ping <= 0 then maxPing else ping)
            == WeightOf(maxPing, if ping <= 0 then MAX_INT64 / 2 else ping)
            <==> maxPing < LIMIT || ping > 0
  {
  }

  /** The two weight computations agree exactly when no unmeasured instance meets a ping of 2^63-2 or more. */
  lemma {:induction false} WeightsAgreeIff(insts: seq<Instance>)
    ensures SplitterWeights(insts) == BalancerWeights(insts)
            <==> MaxPing(insts) < LIMIT || forall i :: 0 <= i < |insts| ==> insts[i].ping > 0
  {
    var a, b := SplitterWeights(insts), BalancerWeights(insts);
    forall i | 0 <= i < |insts| ensures a[i] == b[i] <==> MaxPing(insts) < LIMIT || insts[i].ping > 0 {
      WeightAgrees(MaxPing(insts), insts[i].ping);
    }
  }

  // ------------------------------------------------------------------ picking

  datatype Cursor = Cursor(current: nat, counter: nat)
  datatype Picked = Picked(cursor: Cursor, index: Option<nat>)

  predicate Positive(ws: seq<nat>) {
    forall i :: 0 <= i < |ws| ==> ws[i] >= 1
  }

  predicate ValidCursor(ws: seq<nat>, c: Cursor) {
    c.current < |ws| && c.counter <= ws[c.current]
  }

  /** Where the next attempt looks: the current instance, or the one after it when its turn is used up. */
  function Advance(ws: seq<nat>, c: Cursor): (c': Cursor)
    requires Positive(ws) && ValidCursor(ws, c)
    ensures ValidCursor(ws, c')
  {
    if c.counter >= ws[c.current] then Cursor(Succ(c.current, |ws|), 1) else Cursor(c.current, c.counter + 1)
  }

  function Attempts(ws: seq<nat>, healthy: seq<bool>, c: Cursor, attempts: nat): (p: Picked)
    requires Positive(ws) && |healthy| == |ws| && ValidCursor(ws, c)
    ensures ValidCursor(ws, p.cursor)
    decreases attempts
  {
    if attempts == 0 then Picked(c, None)
    else
      var at := Advance(ws, c);
      if healthy[at.current] then Picked(at, Some(at.current))
      else Attempts(ws, healthy, Cursor(Succ(at.current, |ws|), 0), attempts - 1)
  }

  function FirstHealthy(healthy: seq<bool>, from: nat): Option<nat>
    requires from <= |healthy|
    decreases |healthy| - from
  {
    if from == |healthy| then None else if healthy[from] then Some(from) else FirstHealthy(healthy, from + 1)
  }

  /** `pickInstance`: up to two rounds of attempts, then the first healthy instance in list order. */
  function SplitterPick(ws: seq<nat>, healthy: seq<bool>, c: Cursor): (p: Picked)
    requires Positive(ws) && |healthy| == |ws| && (ws != [] ==> ValidCursor(ws, c))
    ensures ws != [] ==> ValidCursor(ws, p.cursor)
  {
    if ws == [] then Picked(c, None)
    else
      var p := Attempts(ws, healthy, c, 2 * |ws|);
      if p.index.Some? then p else Picked(p.cursor, FirstHealthy(healthy, 0))
  }

  /** The instance `d` places after `a` in rotation order. */
  function Place(a: nat, d: nat, n: nat): (i: nat)
    requires n > 0
    ensures i < n
  {
    Mod(a + d, n)
  }

  /** Instance `a + d` is the first healthy one in rotation order from `a`. */
  predicate Nearest(healthy: seq<bool>, a: nat, d: nat)
    requires healthy != []
  {
    healthy[Place(a, d, |healthy|)] && forall e: nat :: e < d ==> !healthy[Place(a, e, |healthy|)]
  }

  lemma {:induction false} AttemptsFind(ws: seq<nat>, healthy: seq<bool>, c: Cursor, attempts: nat, d: nat)
    requires Positive(ws) && |healthy| == |ws| && ValidCursor(ws, c) && d < attempts
    requires Nearest(healthy, Advance(ws, c).current, d)
    ensures var p := Attempts(ws, healthy, c, attempts);
            p.index == Some(Place(Advance(ws, c).current, d, |ws|)) && p.cursor.current == p.index.value
    decreases d
  {
    var n, a := |ws|, Advance(ws, c).current;
    assert Place(a, 0, n) == a;
    if d > 0 {
      var c' := Cursor(Succ(a, n), 0);
      assert Advance(ws, c').current == Succ(a, n);
      forall e: nat | e < d ensures Place(Succ(a, n), e, n) == Place(a, e + 1, n) {
        RotateOnce(a, e + 1, n);
      }
      AttemptsFind(ws, healthy, c', attempts - 1, d - 1);
    }
  }

  lemma {:induction false} NearestExists(healthy: seq<bool>, a: nat, i: nat) returns (d: nat)
    requires a < |healthy| && i < |healthy| && healthy[i]
    ensures d < |healthy| && Nearest(healthy, a, d)
  {
    var n := |healthy|;
    ghost var far: nat := if i >= a then i - a else i - a + n;
    assert Mod(i + n, n) == Mod(i, n) == i;
    assert Place(a, far, n) == i;
    d := 0;
    while !healthy[Place(a, d, n)]
      invariant d <= far
      invariant forall e: nat :: e < d ==> !healthy[Place(a, e, n)]
      decreases far - d
    {
      d := d + 1;
    }
  }

  /**
   With any set of healthy instances: a pick succeeds exactly when some instance is healthy, and it returns
   the first healthy one in rotation order; the list-order fallback is never what decides.
   */
  lemma {:induction false} PickIsNearestHealthy(ws: seq<nat>, healthy: seq<bool>, c: Cursor)
    requires Positive(ws) && ws != [] && |healthy| == |ws| && ValidCursor(ws, c)
    ensures var p := SplitterPick(ws, healthy, c);
            var a := Advance(ws, c).current;
            && (p.index.Some? <==> exists i :: 0 <= i < |healthy| && healthy[i])
            && (p.index.Some? ==>
                  && p == Attempts(ws, healthy, c, 2 * |ws|)
                  && p.cursor.current == p.index.value
                  && exists d: nat :: d < |ws| && Nearest(healthy, a, d) && p.index.value == Place(a, d, |ws|))
  {
    if i :| 0 <= i < |healthy| && healthy[i] {
      var d := NearestExists(healthy, Advance(ws, c).current, i);
      AttemptsFind(ws, healthy, c, 2 * |ws|, d);
    } else {
      NoneHealthy(ws, healthy, c, 2 * |ws|);
      FirstHealthyNone(healthy, 0);
    }
  }

  lemma {:induction false} NoneHealthy(ws: seq<nat>, healthy: seq<bool>, c: Cursor, attempts: nat)
    requires Positive(ws) && |healthy| == |ws| && ValidCursor(ws, c)
    requires forall i :: 0 <= i < |healthy| ==> !healthy[i]
    ensures Attempts(ws, healthy, c, attempts).index == None
    decreases attempts
  {
    if attempts > 0 {
      NoneHealthy(ws, healthy, Cursor(Succ(Advance(ws, c).current, |ws|), 0), attempts - 1);
    }
  }

  lemma {:induction false} FirstHealthyNone(healthy: seq<bool>, from: nat)
    requires from <= |healthy| && forall i :: 0 <= i < |healthy| ==> !healthy[i]
    ensures FirstHealthy(healthy, from) == None
    decreases |healthy| - from
  {
    if from < |healthy| {
      FirstHealthyNone(healthy, from + 1);
    }
  }

  // ------------------------------------------------------------------ fairness

  function Prefix(ws: seq<nat>, i: nat): nat
    requires i <= |ws|
  {
    if i == 0 then 0 else Prefix(ws, i - 1) + ws[i - 1]
  }

  function Sum(ws: seq<nat>): nat {
    Prefix(ws, |ws|)
  }

  lemma {:induction false} PrefixMonotone(ws: seq<nat>, i: nat, j: nat)
    requires i <= j <= |ws|
    ensures Prefix(ws, i) <= Prefix(ws, j)
    decreases j
  {
    if i < j {
      PrefixMonotone(ws, i, j - 1);
    }
  }

  /** Position `x` of the rotation belongs to instance `i`: it lies in the prefix-sum interval of `i`. */
  predicate InSlot(ws: seq<nat>, i: nat, x: nat) {
    i < |ws| && Prefix(ws, i) <= x < Prefix(ws, i + 1)
  }

  lemma {:induction false} SlotUnique(ws: seq<nat>, i: nat, j: nat, x: nat)
    requires InSlot(ws, i, x) && InSlot(ws, j, x)
    ensures i == j
  {
    if i < j {
      PrefixMonotone(ws, i + 1, j);
    } else if j < i {
      PrefixMonotone(ws, j + 1, i);
    }
  }

  function Position(ws: seq<nat>, c: Cursor): nat
    requires ValidCursor(ws, c)
  {
    Prefix(ws, c.current) + c.counter
  }

  lemma {:induction false} Totals(ws: seq<nat>, i: nat)
    requires Positive(ws) && i < |ws|
    ensures Prefix(ws, i) < Prefix(ws, i + 1) <= Sum(ws)
    ensures i + 1 < |ws| ==> Prefix(ws, i + 1) < Prefix(ws, i + 2) <= Sum(ws)
    ensures 0 < Sum(ws) && Prefix(ws, 1) == ws[0]
  {
    PrefixMonotone(ws, i + 1, |ws|);
    if i + 1 < |ws| {
      PrefixMonotone(ws, i + 2, |ws|);
    }
    assert Prefix(ws, 0) == 0;
  }

  /** One pick with every instance healthy serves the rotation position modulo the weight sum, and moves one on. */
  lemma {:induction false} AdvanceServes(ws: seq<nat>, c: Cursor)
    requires Positive(ws) && ValidCursor(ws, c)
    ensures Sum(ws) > 0
    ensures InSlot(ws, Advance(ws, c).current, Mod(Position(ws, c), Sum(ws)))
    ensures Position(ws, Advance(ws, c)) == Mod(Position(ws, c), Sum(ws)) + 1
  {
    Totals(ws, c.current);
  }

  function AllHealthy(n: nat): seq<bool> {
    seq(n, _ => true)
  }

  /** The cursor after `k` picks with every instance healthy. */
  function After(ws: seq<nat>, c: Cursor, k: nat): (c': Cursor)
    requires Positive(ws) && ValidCursor(ws, c)
    ensures ValidCursor(ws, c')
  {
    if k == 0 then c else SplitterPick(ws, AllHealthy(|ws|), After(ws, c, k - 1)).cursor
  }

  function PickAt(ws: seq<nat>, c: Cursor, k: nat): Option<nat>
    requires Positive(ws) && ValidCursor(ws, c)
  {
    SplitterPick(ws, AllHealthy(|ws|), After(ws, c, k)).index
  }

  lemma {:induction false} AfterPosition(ws: seq<nat>, c: Cursor, k: nat)
    requires Positive(ws) && ValidCursor(ws, c)
    ensures Sum(ws) > 0
    ensures Mod(Position(ws, After(ws, c, k)), Sum(ws)) == Mod(Position(ws, c) + k, Sum(ws))
  {
    Totals(ws, c.current);
    if k > 0 {
      AfterPosition(ws, c, k - 1);
      var b := After(ws, c, k - 1);
      AdvanceServes(ws, b);
      ModStep(Position(ws, c) + k - 1, Sum(ws));
    }
  }

  /**
   The k-th pick from any reachable cursor, all instances healthy, is the instance whose prefix-sum interval
   contains the start position plus k, modulo the sum of the weights.
   */
  lemma {:induction false} KthPick(ws: seq<nat>, c: Cursor, k: nat)
    requires Positive(ws) && ValidCursor(ws, c)
    ensures Sum(ws) > 0
    ensures PickAt(ws, c, k).Some? && InSlot(ws, PickAt(ws, c, k).value, Mod(Position(ws, c) + k, Sum(ws)))
  {
    AfterPosition(ws, c, k);
    AdvanceServes(ws, After(ws, c, k));
  }

  /** How often instance `i` is among the first `m` picks from `c`. */
  function Hits(ws: seq<nat>, c: Cursor, i: nat, m: nat): nat
    requires Positive(ws) && ValidCursor(ws, c)
  {
    if m == 0 then 0 else Hits(ws, c, i, m - 1) + if PickAt(ws, c, m - 1) == Some(i) then 1 else 0
  }

  /** How many of the positions p, p+1, ..., p+m-1, taken modulo the weight sum, belong to `i`. */
  function SlotHits(ws: seq<nat>, i: nat, p: nat, m: nat): nat
    requires Sum(ws) > 0
  {
    if m == 0 then 0 else SlotHits(ws, i, p, m - 1) + if InSlot(ws, i, Mod(p + m - 1, Sum(ws))) then 1 else 0
  }

  lemma {:induction false} HitsAreSlotHits(ws: seq<nat>, c: Cursor, i: nat, m: nat)
    requires Positive(ws) && ValidCursor(ws, c) && i < |ws|
    ensures Sum(ws) > 0
    ensures Hits(ws, c, i, m) == SlotHits(ws, i, Position(ws, c), m)
  {
    KthPick(ws, c, m);
    if m > 0 {
      HitsAreSlotHits(ws, c, i, m - 1);
      HitIsSlotHit(ws, c, i, m - 1);
    }
  }

  lemma {:induction false} HitIsSlotHit(ws: seq<nat>, c: Cursor, i: nat, k: nat)
    requires Positive(ws) && ValidCursor(ws, c) && i < |ws|
    ensures Sum(ws) > 0
    ensures PickAt(ws, c, k) == Some(i) <==> InSlot(ws, i, Mod(Position(ws, c) + k, Sum(ws)))
  {
    KthPick(ws, c, k);
    var x := Mod(Position(ws, c) + k, Sum(ws));
    if InSlot(ws, i, x) {
      SlotUnique(ws, i, PickAt(ws, c, k).value, x);
    }
  }

  /** Dropping the first position of a window and adding the next one. */
  lemma {:induction false} SlideWindow(ws: seq<nat>, i: nat, p: nat, m: nat)
    requires Sum(ws) > 0
    ensures SlotHits(ws, i, p, m + 1)
            == SlotHits(ws, i, p + 1, m) + if InSlot(ws, i, Mod(p, Sum(ws))) then 1 else 0
  {
    if m > 0 {
      SlideWindow(ws, i, p, m - 1);
    }
  }

  lemma {:induction false} FirstRound(ws: seq<nat>, i: nat, m: nat)
    requires Sum(ws) > 0 && i < |ws| && m <= Sum(ws)
    ensures SlotHits(ws, i, 0, m)
            == if m <= Prefix(ws, i) then 0 else if m <= Prefix(ws, i + 1) then m - Prefix(ws, i) else ws[i]
  {
    if m > 0 {
      FirstRound(ws, i, m - 1);
    }
  }

  lemma {:induction false} EveryWindow(ws: seq<nat>, i: nat, p: nat)
    requires Sum(ws) > 0 && i < |ws|
    ensures SlotHits(ws, i, p, Sum(ws)) == ws[i]
  {
    var w := Sum(ws);
    if p == 0 {
      FirstRound(ws, i, w);
      PrefixMonotone(ws, i + 1, |ws|);
    } else {
      EveryWindow(ws, i, p - 1);
      SlideWindow(ws, i, p - 1, w);
      assert Mod(p - 1 + (w + 1) - 1, w) == Mod(p - 1, w);
    }
  }

  /**
   Exact fairness: with all instances healthy, any window of as many consecutive picks as the weights sum up
   to, starting anywhere, chooses instance `i` exactly as often as its weight says.
   */
  lemma {:induction false} WindowIsFair(ws: seq<nat>, c: Cursor, i: nat)
    requires Positive(ws) && ValidCursor(ws, c) && i < |ws|
    ensures Hits(ws, c, i, Sum(ws)) == ws[i]
  {
    HitsAreSlotHits(ws, c, i, Sum(ws));
    EveryWindow(ws, i, Position(ws, c));
  }

  lemma {:induction false} CloseProducts(m: int, a: int, b: int, x: int, y: int)
    requires a * x <= m < (a + 1) * x && b * y <= m < (b + 1) * y
    ensures a * x - b * y < y && b * y - a * x < x
  {
    assert (a + 1) * x == a * x + x;
    assert (b + 1) * y == b * y + y;
  }

  /**
   Shares follow speed: in any window of as many picks as the weights sum up to, all instances healthy, the number
   of picks times the ping is the same for any two measured instances up to less than the larger of the two pings.
   */
  lemma {:induction false} SharesFollowSpeed(insts: seq<Instance>, c: Cursor, i: nat, j: nat)
    requires i < |insts| && j < |insts| && insts[i].ping > 0 && insts[j].ping > 0
    requires ValidCursor(SplitterWeights(insts), c)
    ensures var ws := SplitterWeights(insts);
            && Positive(ws)
            && var x, y := Hits(ws, c, i, Sum(ws)) * insts[i].ping, Hits(ws, c, j, Sum(ws)) * insts[j].ping;
               -insts[i].ping < x - y < insts[j].ping
  {
    var ws := SplitterWeights(insts);
    WindowIsFair(ws, c, i);
    WindowIsFair(ws, c, j);
    WeightIsRatio(insts, i);
    WeightIsRatio(insts, j);
    CloseProducts(MaxPing(insts), ws[i], ws[j], insts[i].ping, insts[j].ping);
  }

  // ------------------------------------------------------------------ fairness among the healthy

  /** The weights that count while exactly these instances are healthy. */
  function Effective(ws: seq<nat>, healthy: seq<bool>): (es: seq<nat>)
    requires |ws| == |healthy|
    ensures |es| == |ws|
  {
    seq(|ws|, i requires 0 <= i < |ws| => if healthy[i] then ws[i] else 0)
  }

  /** The place in the rotation of the healthy instances. */
  function Rank(ws: seq<nat>, healthy: seq<bool>, c: Cursor): nat
    requires |ws| == |healthy| && ValidCursor(ws, c)
  {
    Prefix(Effective(ws, healthy), c.current) + if healthy[c.current] then c.counter else 0
  }

  /** Serving `at` from a place of the rotation: it is the instance whose turn it is, and the rotation moves one on. */
  predicate ServedInTurn(ws: seq<nat>, healthy: seq<bool>, rank: nat, at: Cursor)
    requires |ws| == |healthy|
  {
    var es := Effective(ws, healthy);
    && ValidCursor(ws, at) && Sum(es) > 0
    && InSlot(es, at.current, Mod(rank, Sum(es)))
    && Rank(ws, healthy, at) == Mod(rank, Sum(es)) + 1
  }

  lemma {:induction false} StepBy(es: seq<nat>, i: nat)
    requires i < |es|
    ensures Prefix(es, i + 1) == Prefix(es, i) + es[i] <= Sum(es)
    ensures i + 1 == |es| ==> Prefix(es, i + 1) == Sum(es)
  {
    PrefixMonotone(es, i + 1, |es|);
  }

  /** Where the first attempt from a cursor looks is in turn if it is healthy; if not, skipping it leaves the rank alone. */
  lemma {:induction false} LookAhead(ws: seq<nat>, healthy: seq<bool>, c: Cursor)
    requires Positive(ws) && |healthy| == |ws| && ValidCursor(ws, c) && Sum(Effective(ws, healthy)) > 0
    ensures var at, w := Advance(ws, c), Sum(Effective(ws, healthy));
            if healthy[at.current] then ServedInTurn(ws, healthy, Rank(ws, healthy, c), at)
            else Mod(Rank(ws, healthy, Cursor(Succ(at.current, |ws|), 0)), w) == Mod(Rank(ws, healthy, c), w)
  {
    var es, at := Effective(ws, healthy), Advance(ws, c);
    StepBy(es, c.current);
    StepBy(es, at.current);
    assert Prefix(es, 0) == 0;
    assert Mod(Sum(es), Sum(es)) == 0;
  }

  lemma {:induction false} AttemptsServe(ws: seq<nat>, healthy: seq<bool>, c: Cursor, attempts: nat)
    requires Positive(ws) && |healthy| == |ws| && ValidCursor(ws, c) && Sum(Effective(ws, healthy)) > 0
    requires Attempts(ws, healthy, c, attempts).index.Some?
    ensures var p := Attempts(ws, healthy, c, attempts);
            p.index == Some(p.cursor.current) && ServedInTurn(ws, healthy, Rank(ws, healthy, c), p.cursor)
    decreases attempts
  {
    var at := Advance(ws, c);
    LookAhead(ws, healthy, c);
    if !healthy[at.current] {
      AttemptsServe(ws, healthy, Cursor(Succ(at.current, |ws|), 0), attempts - 1);
    }
  }

  lemma {:induction false} SomeHealthySum(ws: seq<nat>, healthy: seq<bool>, i: nat)
    requires Positive(ws) && |healthy| == |ws| && i < |ws| && healthy[i]
    ensures Sum(Effective(ws, healthy)) > 0
  {
    StepBy(Effective(ws, healthy), i);
  }

  /** The cursor after `k` picks while exactly these instances are healthy. */
  function AfterPicks(ws: seq<nat>, healthy: seq<bool>, c: Cursor, k: nat): (c': Cursor)
    requires Positive(ws) && |healthy| == |ws| && ValidCursor(ws, c)
    ensures ValidCursor(ws, c')
  {
    if k == 0 then c else SplitterPick(ws, healthy, AfterPicks(ws, healthy, c, k - 1)).cursor
  }

  function PickOf(ws: seq<nat>, healthy: seq<bool>, c: Cursor, k: nat): Option<nat>
    requires Positive(ws) && |healthy| == |ws| && ValidCursor(ws, c)
  {
    SplitterPick(ws, healthy, AfterPicks(ws, healthy, c, k)).index
  }

  lemma {:induction false} PickServes(ws: seq<nat>, healthy: seq<bool>, c: Cursor, i: nat)
    requires Positive(ws) && |healthy| == |ws| && ValidCursor(ws, c) && i < |ws| && healthy[i]
    ensures var p := SplitterPick(ws, healthy, c);
            p.index == Some(p.cursor.current) && ServedInTurn(ws, healthy, Rank(ws, healthy, c), p.cursor)
  {
    SomeHealthySum(ws, healthy, i);
    PickIsNearestHealthy(ws, healthy, c);
    AttemptsServe(ws, healthy, c, 2 * |ws|);
  }

  lemma {:induction false} RankAfter(ws: seq<nat>, healthy: seq<bool>, c: Cursor, i: nat, k: nat)
    requires Positive(ws) && |healthy| == |ws| && ValidCursor(ws, c) && i < |ws| && healthy[i]
    ensures var w := Sum(Effective(ws, healthy));
            w > 0 && Mod(Rank(ws, healthy, AfterPicks(ws, healthy, c, k)), w) == Mod(Rank(ws, healthy, c) + k, w)
  {
    SomeHealthySum(ws, healthy, i);
    if k > 0 {
      RankAfter(ws, healthy, c, i, k - 1);
      PickServes(ws, healthy, AfterPicks(ws, healthy, c, k - 1), i);
      ModStep(Rank(ws, healthy, c) + k - 1, Sum(Effective(ws, healthy)));
    }
  }

  /** How often instance `i` is among the first `m` picks from `c` while exactly these instances are healthy. */
  function HitsOf(ws: seq<nat>, healthy: seq<bool>, c: Cursor, i: nat, m: nat): nat
    requires Positive(ws) && |healthy| == |ws| && ValidCursor(ws, c)
  {
    if m == 0 then 0 else HitsOf(ws, healthy, c, i, m - 1) + if PickOf(ws, healthy, c, m - 1) == Some(i) then 1 else 0
  }

  lemma {:induction false} PickIsSlot(ws: seq<nat>, healthy: seq<bool>, c: Cursor, i: nat, some: nat, k: nat)
    requires Positive(ws) && |healthy| == |ws| && ValidCursor(ws, c) && i < |ws| && some < |ws| && healthy[some]
    ensures var es := Effective(ws, healthy);
            Sum(es) > 0 && (PickOf(ws, healthy, c, k) == Some(i) <==> InSlot(es, i, Mod(Rank(ws, healthy, c) + k, Sum(es))))
  {
    var es := Effective(ws, healthy);
    RankAfter(ws, healthy, c, some, k);
    PickServes(ws, healthy, AfterPicks(ws, healthy, c, k), some);
    var x := Mod(Rank(ws, healthy, c) + k, Sum(es));
    if InSlot(es, i, x) {
      SlotUnique(es, i, PickOf(ws, healthy, c, k).value, x);
    }
  }

  lemma {:induction false} HitsOfAreSlots(ws: seq<nat>, healthy: seq<bool>, c: Cursor, i: nat, some: nat, m: nat)
    requires Positive(ws) && |healthy| == |ws| && ValidCursor(ws, c) && i < |ws| && some < |ws| && healthy[some]
    ensures var es := Effective(ws, healthy);
            Sum(es) > 0 && HitsOf(ws, healthy, c, i, m) == SlotHits(es, i, Rank(ws, healthy, c), m)
  {
    SomeHealthySum(ws, healthy, some);
    if m > 0 {
      HitsOfAreSlots(ws, healthy, c, i, some, m - 1);
      PickIsSlot(ws, healthy, c, i, some, m - 1);
    }
  }

  /**
   Exact fairness among the healthy: while the set of healthy instances stays the same and is not empty, any window
   of as many consecutive picks as their weights sum up to, starting anywhere, chooses each of them exactly as often
   as its weight says and no other.
   */
  lemma {:induction false} HealthyWindowIsFair(ws: seq<nat>, healthy: seq<bool>, c: Cursor, i: nat)
    requires Positive(ws) && |healthy| == |ws| && ValidCursor(ws, c) && i < |ws|
    requires exists j :: 0 <= j < |healthy| && healthy[j]
    ensures HitsOf(ws, healthy, c, i, Sum(Effective(ws, healthy))) == if healthy[i] then ws[i] else 0
  {
    var some :| 0 <= some < |healthy| && healthy[some];
    var es := Effective(ws, healthy);
    HitsOfAreSlots(ws, healthy, c, i, some, Sum(es));
    EveryWindow(es, i, Rank(ws, healthy, c));
  }

  // ------------------------------------------------------------------ the second scheduler

  function BalancerAttempts(ws: seq<nat>, c: Cursor, attempts: nat): Picked
    requires ws != []
    decreases attempts
  {
    if attempts == 0 then Picked(c, None)
    else
      var idx := Mod(c.current, |ws|);
      if c.counter < ws[idx] then Picked(c.(counter := c.counter + 1), Some(idx))
      else BalancerAttempts(ws, Cursor(c.current + 1, 0), attempts - 1)
  }

  /** `WeightedRoundRobin.Pick`; its cursor counts up without bound and is reduced modulo the list length. */
  function BalancerPick(ws: seq<nat>, c: Cursor): Picked {
    if ws == [] then Picked(c, None)
    else if |ws| == 1 then Picked(c, Some(0))
    else
      var p := BalancerAttempts(ws, c, 2 * |ws|);
      if p.index.Some? then p else Picked(p.cursor, Some(0))
  }

  function BalancerAfter(ws: seq<nat>, k: nat): Cursor {
    if k == 0 then Cursor(0, 0) else BalancerPick(ws, BalancerAfter(ws, k - 1)).cursor
  }

  /** The two cursors describe the same place in the rotation. */
  predicate SamePlace(ws: seq<nat>, b: Cursor, c: Cursor) {
    ws != [] && Mod(b.current, |ws|) == c.current && b.counter == c.counter
  }

  lemma {:induction false} SamePick(ws: seq<nat>, b: Cursor, c: Cursor)
    requires Positive(ws) && |ws| > 1 && ValidCursor(ws, c) && SamePlace(ws, b, c)
    ensures var p, q := BalancerPick(ws, b), SplitterPick(ws, AllHealthy(|ws|), c);
            p.index == q.index && p.index.Some? && SamePlace(ws, p.cursor, q.cursor)
            && p == BalancerAttempts(ws, b, 2 * |ws|)
  {
    var n := |ws|;
    if c.counter >= ws[c.current] {
      ModStep(b.current, n);
      assert BalancerAttempts(ws, b, 2 * n) == BalancerAttempts(ws, Cursor(b.current + 1, 0), 2 * n - 1);
    }
  }

  lemma {:induction false} SamePlaceAlways(ws: seq<nat>, k: nat)
    requires Positive(ws) && |ws| > 1
    ensures SamePlace(ws, BalancerAfter(ws, k), After(ws, Cursor(0, 0), k))
  {
    if k > 0 {
      SamePlaceAlways(ws, k - 1);
      SamePick(ws, BalancerAfter(ws, k - 1), After(ws, Cursor(0, 0), k - 1));
    }
  }

  /**
   The two separately written schedulers agree forever: for every list of healthy instances whose weights
   they compute alike, the k-th picks are the same for every k, and the balancer never reaches its fallback.
   */
  lemma {:induction false} SchedulersAgree(insts: seq<Instance>, k: nat)
    requires insts != []
    requires MaxPing(insts) < LIMIT || forall i :: 0 <= i < |insts| ==> insts[i].ping > 0
    ensures var ws := SplitterWeights(insts);
            && BalancerWeights(insts) == ws
            && BalancerPick(ws, BalancerAfter(ws, k)).index == PickAt(ws, Cursor(0, 0), k)
            && (|ws| > 1 ==> BalancerAttempts(ws, BalancerAfter(ws, k), 2 * |ws|).index.Some?)
  {
    var ws := SplitterWeights(insts);
    WeightsAgreeIff(insts);
    BalancerIsPickAt(ws, k);
  }

  lemma {:induction false} BalancerIsPickAt(ws: seq<nat>, k: nat)
    requires Positive(ws) && ws != []
    ensures BalancerPick(ws, BalancerAfter(ws, k)).index == PickAt(ws, Cursor(0, 0), k)
    ensures |ws| > 1 ==> BalancerAttempts(ws, BalancerAfter(ws, k), 2 * |ws|).index.Some?
  {
    if |ws| > 1 {
      SamePlaceAlways(ws, k);
      SamePick(ws, BalancerAfter(ws, k), After(ws, Cursor(0, 0), k));
    } else {
      KthPick(ws, Cursor(0, 0), k);
    }
  }

  lemma {:induction false} SamePrefix(a: seq<nat>, b: seq<nat>, i: nat)
    requires i <= |a| && i <= |b| && a[..i] == b[..i]
    ensures Prefix(a, i) == Prefix(b, i)
  {
    if i > 0 {
      assert a[..i][..i - 1] == a[..i - 1] && b[..i][..i - 1] == b[..i - 1];
      assert a[i - 1] == a[..i][i - 1] && b[i - 1] == b[..i][i - 1];
      SamePrefix(a, b, i - 1);
    }
  }

  /** From the start, the pick right after the turn of instance `i` is not `i`; a longer turn still picks `i` there. */
  lemma {:induction false} TurnsDiffer(a: seq<nat>, b: seq<nat>, i: nat)
    requires Positive(a) && Positive(b) && |a| == |b| > 1 && i < |a| && a[..i] == b[..i] && a[i] < b[i]
    ensures var k := Prefix(a, i) + a[i]; PickAt(a, Cursor(0, 0), k) != PickAt(b, Cursor(0, 0), k)
  {
    var k := Prefix(a, i) + a[i];
    StillOn(b, i, a[i]);
    SamePrefix(a, b, i);
    MovedOn(a, i);
  }

  lemma {:induction false} StillOn(ws: seq<nat>, i: nat, d: nat)
    requires Positive(ws) && i < |ws| && d < ws[i]
    ensures PickAt(ws, Cursor(0, 0), Prefix(ws, i) + d) == Some(i)
  {
    var k := Prefix(ws, i) + d;
    Totals(ws, i);
    KthPick(ws, Cursor(0, 0), k);
    assert Mod(k, Sum(ws)) == k;
    SlotUnique(ws, i, PickAt(ws, Cursor(0, 0), k).value, k);
  }

  lemma {:induction false} MovedOn(ws: seq<nat>, i: nat)
    requires Positive(ws) && i < |ws|
    ensures PickAt(ws, Cursor(0, 0), Prefix(ws, i) + ws[i]) == Some(if i + 1 < |ws| then i + 1 else 0)
  {
    var k := Prefix(ws, i) + ws[i];
    if i + 1 < |ws| {
      StillOn(ws, i + 1, 0);
    } else {
      Totals(ws, 0);
      KthPick(ws, Cursor(0, 0), k);
      assert k == Sum(ws) && Mod(k, Sum(ws)) == 0;
      SlotUnique(ws, 0, PickAt(ws, Cursor(0, 0), k).value, 0);
    }
  }

  lemma {:induction false} FirstDifference(a: seq<nat>, b: seq<nat>) returns (i: nat)
    requires |a| == |b| && a != b
    ensures i < |a| && a[..i] == b[..i] && a[i] != b[i]
  {
    var n := |a| - 1;
    assert a == a[..n] + [a[n]] && b == b[..n] + [b[n]];
    if a[..n] == b[..n] {
      i := n;
    } else {
      i := FirstDifference(a[..n], b[..n]);
      assert a[..n][..i] == a[..i] && b[..n][..i] == b[..i];
    }
  }

  lemma {:induction false} WeightsShow(a: seq<nat>, b: seq<nat>) returns (k: nat)
    requires Positive(a) && Positive(b) && |a| == |b| > 1 && a != b
    ensures PickAt(a, Cursor(0, 0), k) != PickAt(b, Cursor(0, 0), k)
  {
    var i := FirstDifference(a, b);
    if a[i] < b[i] {
      k := Prefix(a, i) + a[i];
      TurnsDiffer(a, b, i);
    } else {
      k := Prefix(b, i) + b[i];
      TurnsDiffer(b, a, i);
    }
  }

  lemma {:induction false} OnlyChoice(ws: seq<nat>, k: nat)
    requires Positive(ws) && |ws| == 1
    ensures PickAt(ws, Cursor(0, 0), k) == Some(0)
  {
    KthPick(ws, Cursor(0, 0), k);
  }

  /** The splitter with weights `a` and the balancer with weights `b` pick the same instances forever. */
  ghost predicate SamePicks(a: seq<nat>, b: seq<nat>)
    requires Positive(a) && Positive(b) && a != [] && b != []
  {
    forall k: nat :: BalancerPick(b, BalancerAfter(b, k)).index == PickAt(a, Cursor(0, 0), k)
  }

  lemma {:induction false} SamePicksIff(a: seq<nat>, b: seq<nat>)
    requires Positive(a) && Positive(b) && |a| == |b| > 0
    ensures SamePicks(a, b) <==> a == b || |a| == 1
  {
    if a == b || |a| == 1 {
      forall k: nat ensures BalancerPick(b, BalancerAfter(b, k)).index == PickAt(a, Cursor(0, 0), k) {
        BalancerIsPickAt(b, k);
        if |a| == 1 {
          OnlyChoice(a, k);
          OnlyChoice(b, k);
        }
      }
    } else {
      var k := WeightsShow(a, b);
      BalancerIsPickAt(b, k);
    }
  }

  /**
   Exactly when the schedulers agree: for every non-empty list of healthy instances, the two pick sequences,
   each with its own weights, are the same forever if and only if there is just one instance, every ping is
   positive, or the largest is below the limit.
   */
  lemma {:induction false} SchedulersAgreeIff(insts: seq<Instance>)
    requires insts != []
    ensures SamePicks(SplitterWeights(insts), BalancerWeights(insts))
            <==> |insts| == 1 || MaxPing(insts) < LIMIT || forall i :: 0 <= i < |insts| ==> insts[i].ping > 0
  {
    WeightsAgreeIff(insts);
    SamePicksIff(SplitterWeights(insts), BalancerWeights(insts));
  }
}
