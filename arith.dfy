/** Integer facts shared by the key selectors and the window manager. */
module Arithmetic {
  /** Go's `/` on integers truncates toward zero; Dafny's is Euclidean. */
  function TruncDiv(a: int, b: int): (r: int)
    requires b != 0
    ensures b > 0 && a >= 0 ==> r == a / b
  {
    if a >= 0 && b > 0 then a / b
    else if a >= 0 then -(a / (-b))
    else if b > 0 then -((-a) / b)
    else (-a) / (-b)
  }

  /** Go's `%` on integers takes the sign of the dividend: a == b * TruncDiv(a, b) + TruncRem(a, b). */
  function TruncRem(a: int, b: int): (r: int)
    requires b != 0
    ensures a == b * TruncDiv(a, b) + r
    ensures b > 0 && a >= 0 ==> r == a % b
  {
    a - b * TruncDiv(a, b)
  }

  /** a is a multiple of n: stepping by n from a reaches 0. */
  predicate Multiple(a: int, n: int)
    requires n > 0
    decreases a < 0, if a < 0 then -a else a
  {
    if 0 <= a < n then a == 0
    else if a >= n then Multiple(a - n, n)
    else Multiple(a + n, n)
  }

  /** Multiple agrees with the remainder. */
  lemma {:induction false} MultipleIsMod(a: int, n: int)
    requires n > 0
    ensures Multiple(a, n) <==> a % n == 0
    decreases a < 0, if a < 0 then -a else a
  {
    if 0 <= a < n {
      ModUnique(n, a, 0, a);
    } else if a >= n {
      MultipleIsMod(a - n, n);
      ModShiftBy(a - n, n);
    } else {
      MultipleIsMod(a + n, n);
      ModShiftBy(a, n);
    }
  }

  /** Adding n does not change the remainder. */
  lemma ModShiftBy(a: int, n: int)
    requires n > 0
    ensures (a + n) % n == a % n
  {
    var q, r := a / n, a % n;
    assert a == q * n + r;
    assert (q + 1) * n == q * n + n;
    ModUnique(n, a + n, q + 1, r);
  }

  /** Division with remainder is unique: a = q * n + r with 0 <= r < n fixes a / n and a % n. */
  lemma ModUnique(n: int, a: int, q: int, r: int)
    requires n > 0 && 0 <= r < n && a == q * n + r
    ensures a % n == r && a / n == q
  {
    var q2, r2 := a / n, a % n;
    var d := q - q2;
    assert d * n == r2 - r by {
      assert q * n - q2 * n == d * n;
    }
    if d >= 1 {
      MulAtLeast(d, n);
    } else if d <= -1 {
      MulAtLeast(-d, n);
    }
  }

  lemma {:induction false} MulAtLeast(d: int, n: int)
    requires d >= 1 && n > 0
    ensures d * n >= n
    decreases d
  {
    if d > 1 {
      MulAtLeast(d - 1, n);
      assert d * n == (d - 1) * n + n;
    }
  }

  /** Stepping a multiple by n, either way, gives a multiple. */
  lemma MultipleStep(a: int, n: int)
    requires n > 0 && Multiple(a, n)
    ensures Multiple(a + n, n) && Multiple(a - n, n)
  {
    MultipleIsMod(a, n);
    MultipleIsMod(a + n, n);
    MultipleIsMod(a - n, n);
    ModShiftBy(a, n);
    ModShiftBy(a - n, n);
  }

  /** The difference of two multiples of n is a multiple of n. */
  lemma {:induction false} MultipleDiff(a: int, b: int, n: int)
    requires n > 0 && Multiple(a, n) && Multiple(b, n)
    ensures Multiple(b - a, n)
    decreases a < 0, if a < 0 then -a else a
  {
    if a == 0 {
      assert b - a == b;
    } else if a > 0 {
      MultipleStep(b, n);
      MultipleDiff(a - n, b - n, n);
      assert (b - n) - (a - n) == b - a;
    } else {
      MultipleStep(b, n);
      MultipleDiff(a + n, b + n, n);
      assert (b + n) - (a + n) == b - a;
    }
  }

  /** Two different multiples of n are at least n apart. */
  lemma MultipleGap(a: int, b: int, n: int)
    requires n > 0 && Multiple(a, n) && Multiple(b, n) && a < b
    ensures b - a >= n
  {
    MultipleDiff(a, b, n);
  }

  /** n * (a / n) is the largest multiple of n not above a. */
  lemma FloorMultiple(a: int, n: int)
    requires n > 0
    ensures Multiple(n * (a / n), n)
    ensures n * (a / n) <= a < n * (a / n) + n
  {
    ModUnique(n, n * (a / n), a / n, 0);
    MultipleIsMod(n * (a / n), n);
  }

  /** n times any quotient is a multiple of n. */
  lemma MultipleOfProduct(n: int, q: int)
    requires n > 0
    ensures Multiple(n * q, n)
  {
    ModUnique(n, n * q, q, 0);
    MultipleIsMod(n * q, n);
  }
}
