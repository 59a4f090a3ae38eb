/** Facts about Euclidean division by a positive divisor, for the pass counters. */
module Arith {

  lemma MulNonNeg(a: int, b: int)
    requires a >= 0 && b >= 0
    ensures a * b >= 0
  {
  }

  /** Multiplying by a positive number keeps the order. */
  lemma MulMono(a: int, b: int, n: int)
    requires a <= b && n >= 0
    ensures a * n <= b * n
  {
    MulNonNeg(b - a, n);
    assert b * n - a * n == (b - a) * n;
  }

  /** Two items per pair, n pairs per pass, p passes. */
  lemma PairItems(n: int, p: int)
    ensures 2 * (p * n) == 2 * n * p
  {
  }

  /** `x == a * n + b` with `0 <= b < n` fixes the quotient and the remainder. */
  lemma DivModUnique(x: int, n: int, a: int, b: int)
    requires n > 0 && 0 <= b < n && x == a * n + b
    ensures x / n == a && x % n == b
  {
    var q, r := x / n, x % n;
    assert x == q * n + r;
    assert (a - q) * n == r - b by {
      assert a * n - q * n == (a - q) * n;
    }
    if a > q {
      MulMono(1, a - q, n);
    } else if a < q {
      MulMono(1, q - a, n);
    }
  }

  /** The remainder of the next number is the next remainder, wrapped. */
  lemma ModNext(x: nat, n: int)
    requires n > 0
    ensures (x % n + 1) % n == (x + 1) % n
  {
    DivModNext(x, n);
  }

  /** Counting one further: the remainder grows by one or wraps to zero with the quotient one up. */
  lemma DivModNext(x: nat, n: int)
    requires n > 0
    ensures (x + 1) % n == 0 ==> (x + 1) / n == x / n + 1 && x % n == n - 1
    ensures (x + 1) % n != 0 ==> (x + 1) / n == x / n && (x + 1) % n == x % n + 1
    ensures (x % n + 1) % n == (x + 1) % n
  {
    var q, r := x / n, x % n;
    if r + 1 < n {
      DivModUnique(x + 1, n, q, r + 1);
      DivModUnique(r + 1, n, 0, r + 1);
    } else {
      DivModUnique(x + 1, n, q + 1, 0);
      DivModUnique(r + 1, n, 1, 0);
    }
  }

  /** The number of passes begun after `x` steps of `n`: x / n rounded up. */
  function CeilDiv(x: nat, n: int): nat
    requires n > 0
  {
    if x % n == 0 then x / n else x / n + 1
  }

  /** One step further begins a new pass exactly when the previous one was complete. */
  lemma CeilDivNext(x: nat, n: int)
    requires n > 0
    ensures CeilDiv(x + 1, n) == CeilDiv(x, n) + 1 <==> x % n == 0
    ensures CeilDiv(x + 1, n) == CeilDiv(x, n) <==> x % n != 0
  {
    DivModNext(x, n);
    if x % n == 0 {
      DivModUnique(x, n, x / n, 0);
    }
  }

  /**
   * With at most `passes` passes begun, the steps fall short of
   * `total`, which is `passes * n`, unless the last pass is complete.
   */
  lemma CeilDivBound(x: nat, n: int, passes: nat, total: nat)
    requires n > 0 && total == passes * n && x <= total && CeilDiv(x, n) <= passes
    ensures x < total <==> !(x % n == 0 && CeilDiv(x, n) == passes)
  {
    var q, r := x / n, x % n;
    assert x == q * n + r;
    if r == 0 && q == passes {
      assert x == passes * n;
    } else if r == 0 {
      MulMono(q + 1, passes, n);
      assert (q + 1) * n == q * n + n;
    } else {
      MulMono(q + 1, passes, n);
      assert (q + 1) * n == q * n + n;
    }
  }
}
