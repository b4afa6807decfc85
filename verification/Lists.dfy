/** Removal from, and multiplicity in, the slices that hold tunnel connections. */
module Lists {

  function RemoveFirst<T(==)>(s: seq<T>, x: T): (r: seq<T>)
    ensures forall y :: y in r ==> y in s
    ensures forall y :: y in s && y != x ==> y in r
    ensures x !in s ==> r == s
    ensures |r| <= |s|
  {
    if s == [] then [] else if s[0] == x then s[1..] else [s[0]] + RemoveFirst(s[1..], x)
  }

  function Count<T(==)>(s: seq<T>, x: T): nat {
    if s == [] then 0 else (if s[0] == x then 1 else 0) + Count(s[1..], x)
  }

  /** No element occurs twice. */
  predicate Distinct<T(==)>(s: seq<T>) {
    forall i, j :: 0 <= i < j < |s| ==> s[i] != s[j]
  }

  lemma {:induction false} CountZero<T>(s: seq<T>, x: T)
    ensures Count(s, x) == 0 <==> x !in s
  {
    if s != [] {
      CountZero(s[1..], x);
      assert s == [s[0]] + s[1..];
    }
  }

  lemma {:induction false} DistinctCount<T>(s: seq<T>, x: T)
    requires Distinct(s)
    ensures Count(s, x) <= 1
  {
    if s != [] {
      assert Distinct(s[1..]);
      DistinctCount(s[1..], x);
      CountZero(s[1..], x);
    }
  }

  /** Deleting one occurrence leaves the element behind exactly when it occurred more than once. */
  lemma {:induction false} RemoveFirstCount<T>(s: seq<T>, x: T)
    ensures x in RemoveFirst(s, x) <==> Count(s, x) >= 2
  {
    if s != [] {
      CountZero(s[1..], x);
      if s[0] != x {
        RemoveFirstCount(s[1..], x);
      }
    }
  }

  /** It lowers the multiplicity of that element by one, if it occurs, and of no other. */
  lemma {:induction false} RemoveFirstCounts<T>(s: seq<T>, x: T, y: T)
    ensures Count(RemoveFirst(s, x), y) == Count(s, y) - (if x == y && x in s then 1 else 0)
  {
    if s != [] {
      if s[0] != x {
        RemoveFirstCounts(s[1..], x, y);
        assert x in s <==> x in s[1..];
      }
    }
  }

  lemma {:induction false} CountSnoc<T>(s: seq<T>, x: T, y: T)
    ensures Count(s + [x], y) == Count(s, y) + if x == y then 1 else 0
  {
    if s == [] {
      assert [x][1..] == [];
    } else {
      CountSnoc(s[1..], x, y);
      assert (s + [x])[1..] == s[1..] + [x];
    }
  }

  lemma {:induction false} RemoveFirstDistinct<T>(s: seq<T>, x: T)
    requires Distinct(s)
    ensures Distinct(RemoveFirst(s, x)) && x !in RemoveFirst(s, x)
  {
    DistinctCount(s, x);
    RemoveFirstCount(s, x);
    if s != [] && s[0] != x {
      assert Distinct(s[1..]);
      RemoveFirstDistinct(s[1..], x);
      var r := RemoveFirst(s[1..], x);
      assert s[0] !in s[1..];
      assert s[0] !in r;
    }
  }
}
