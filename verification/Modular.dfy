/** Remainders by repeated subtraction, which keeps the reasoning about rotations linear. */
module Modular {

  /** `a % n` for a non-negative `a`; `ModIsRemainder` says so. */
  function Mod(a: nat, n: nat): (r: nat)
    requires n > 0
    ensures r < n
    decreases a
  {
    if a < n then a else Mod(a - n, n)
  }

  function Quot(a: nat, n: nat): nat
    requires n > 0
    decreases a
  {
    if a < n then 0 else Quot(a - n, n) + 1
  }

  lemma {:induction false} QuotMod(a: nat, n: nat)
    requires n > 0
    ensures a == Quot(a, n) * n + Mod(a, n)
    decreases a
  {
    if a >= n {
      QuotMod(a - n, n);
      Distribute(Quot(a - n, n), n);
    }
  }

  lemma {:induction false} Distribute(q: int, n: int)
    ensures (q + 1) * n == q * n + n
  {
  }

  lemma {:induction false} QuotientUnique(n: int, q: int, r: int, q': int, r': int)
    requires 0 <= r < n && 0 <= r' < n && q * n + r == q' * n + r'
    ensures r == r'
  {
    assert (q - q') * n == r' - r;
    MulAtLeast(q - q', n);
  }

  lemma {:induction false} MulAtLeast(x: int, n: int)
    requires n > 0
    ensures x >= 1 ==> x * n >= n
    ensures x <= -1 ==> x * n <= -n
  {
    if x >= 1 {
      assert (x - 1) * n >= 0;
      Distribute(x - 1, n);
    } else if x <= -1 {
      assert (-x - 1) * n >= 0;
      Distribute(-x - 1, n);
      assert x * n == -((-x) * n);
    }
  }

  lemma {:induction false} ModIsRemainder(a: nat, n: nat)
    requires n > 0
    ensures Mod(a, n) == a % n
  {
    QuotMod(a, n);
    QuotientUnique(n, Quot(a, n), Mod(a, n), a / n, a % n);
  }

  /** Equal remainders stay equal when both sides move one on. */
  lemma {:induction false} ModStep(a: nat, n: nat)
    requires n > 0
    ensures Mod(a + 1, n) == if Mod(a, n) + 1 == n then 0 else Mod(a, n) + 1
    decreases a
  {
    if a >= n {
      ModStep(a - n, n);
    }
  }

  /** The index after `i` in a list of length `n`, that is `(i + 1) % n`. */
  function Succ(i: nat, n: nat): (j: nat)
    requires i < n
    ensures j < n && j == Mod(i + 1, n)
  {
    if i + 1 == n then 0 else i + 1
  }

  lemma {:induction false} RotateOnce(a: nat, d: nat, n: nat)
    requires a < n && 0 < d
    ensures Mod(Succ(a, n) + (d - 1), n) == Mod(a + d, n)
  {
    if a + 1 == n {
      assert Mod(a + d, n) == Mod(a + d - n, n);
    }
  }

  /** Only the remainder of the offset matters. */
  lemma {:induction false} ModShift(a: nat, d: nat, n: nat)
    requires n > 0
    ensures Mod(a + d, n) == Mod(Mod(a, n) + d, n)
    decreases a
  {
    if a >= n {
      ModShift(a - n, d, n);
    }
  }

  /** Starting anywhere, n consecutive places of a rotation meet every index... */
  lemma {:induction false} RotationMeets(a: nat, i: nat, n: nat) returns (d: nat)
    requires i < n
    ensures d < n && Mod(a + d, n) == i
  {
    var k := Mod(a, n);
    d := if i >= k then i - k else i - k + n;
    ModShift(a, d, n);
    assert Mod(i + n, n) == Mod(i, n) == i;
  }

  /** ...and none twice. */
  lemma {:induction false} RotationOnce(a: nat, d: nat, e: nat, n: nat)
    requires d < n && e < n && Mod(a + d, n) == Mod(a + e, n)
    ensures d == e
  {
    var k := Mod(a, n);
    ModShift(a, d, n);
    ModShift(a, e, n);
    assert Mod(k + d, n) == if k + d < n then k + d else k + d - n;
    assert Mod(k + e, n) == if k + e < n then k + e else k + e - n;
  }
}
