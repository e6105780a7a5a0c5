/**
 * nsTimestampToFloat of ddtrace/tracer/stats.go: a duration is shifted right
 * until it fits in ten bits and a little, then shifted back.
 */
module DurationRounding {

  const ROUND_MASK: int := 1024

  function Pow2(k: nat): (p: nat)
    ensures p >= 1
  {
    if k == 0 then 1 else 2 * Pow2(k - 1)
  }

  /** The number of right shifts made on `ns`. */
  function Shift(ns: int): nat
    decreases if ns > ROUND_MASK then ns else 0
  {
    if ns <= ROUND_MASK then 0 else 1 + Shift(ns / 2)
  }

  /** `ns` with its `Shift(ns)` low bits cleared. */
  function Rounded(ns: int): int {
    ns / Pow2(Shift(ns)) * Pow2(Shift(ns))
  }

  method NsTimestampToFloat(ns: int) returns (r: int)
    ensures r == Rounded(ns)
  {
    var n, shift := ns, 0;
    while n > ROUND_MASK
      invariant n == ns / Pow2(shift)
      invariant Shift(ns) == shift + Shift(n)
      decreases if n > ROUND_MASK then n else 0
    {
      DivTwice(ns, Pow2(shift));
      n := n / 2;
      shift := shift + 1;
    }
    r := ShiftLeft(n, shift);
  }

  /** `n << shift` */
  function ShiftLeft(n: int, shift: nat): int {
    n * Pow2(shift)
  }

  // ---------------------------------------------------------------------
  // Division by powers of two

  lemma DivBounds(n: int, p: int)
    requires p > 0
    ensures n / p * p <= n < (n / p + 1) * p
  {
    assert n == n / p * p + n % p;
    assert (n / p + 1) * p == n / p * p + p;
  }

  /** There is only one quotient. */
  lemma DivUnique(n: int, p: int, q: int)
    requires p > 0 && q * p <= n < (q + 1) * p
    ensures n / p == q
  {
    DivBounds(n, p);
    if n / p < q {
      MulLe(n / p + 1, q, p);
    } else if n / p > q {
      MulLe(q + 1, n / p, p);
    }
  }

  lemma MulLe(a: int, b: int, p: int)
    requires a <= b && p >= 0
    ensures a * p <= b * p
  {
    assert b * p - a * p == (b - a) * p;
  }

  lemma DivTwice(n: int, p: int)
    requires p > 0
    ensures n / p / 2 == n / (2 * p)
  {
    var q := n / p / 2;
    DivBounds(n, p);
    MulLe(2 * q, n / p, p);
    MulLe(n / p + 1, 2 * q + 2, p);
    assert 2 * q * p == q * (2 * p);
    assert (2 * q + 2) * p == (q + 1) * (2 * p);
    DivUnique(n, 2 * p, q);
  }

  lemma DivHalfFirst(n: int, p: int)
    requires p > 0
    ensures n / 2 / p == n / (2 * p)
  {
    var q := n / 2 / p;
    DivBounds(n / 2, p);
    assert n / 2 + 1 <= (q + 1) * p;
    assert 2 * (q * p) == q * (2 * p);
    assert 2 * ((q + 1) * p) == (q + 1) * (2 * p);
    DivUnique(n, 2 * p, q);
  }

  lemma DivMonotone(m: int, n: int, p: int)
    requires p > 0 && m <= n
    ensures m / p <= n / p
  {
    DivBounds(m, p);
    DivBounds(n, p);
    if m / p > n / p {
      MulLe(n / p + 1, m / p, p);
    }
  }

  // ---------------------------------------------------------------------
  // What the loop stops at

  /** What is left after the shifts has nine to ten bits, unless nothing was shifted. */
  lemma {:induction false} Quotient(ns: int)
    ensures ns / Pow2(Shift(ns)) <= 1024
    ensures ns > 1024 ==> 512 <= ns / Pow2(Shift(ns))
    decreases if ns > ROUND_MASK then ns else 0
  {
    if ns > ROUND_MASK {
      Quotient(ns / 2);
      DivHalfFirst(ns, Pow2(Shift(ns / 2)));
      if ns / 2 <= 1024 {
        assert Pow2(Shift(ns / 2)) == 1;
      }
    }
  }

  lemma {:induction false} ShiftMonotone(m: int, n: int)
    requires m <= n
    ensures Shift(m) <= Shift(n)
    decreases if n > ROUND_MASK then n else 0
  {
    if n > ROUND_MASK && m > ROUND_MASK {
      ShiftMonotone(m / 2, n / 2);
    }
  }

  /** The shift is the least one that brings `ns` down to 1024 at most. */
  lemma {:induction false} ShiftIsLeast(ns: int, k: nat)
    requires ns / Pow2(k) <= 1024
    ensures Shift(ns) <= k
    decreases k
  {
    if ns > ROUND_MASK {
      if k == 0 {
        assert Pow2(0) == 1;
      } else {
        DivHalfFirst(ns, Pow2(k - 1));
        ShiftIsLeast(ns / 2, k - 1);
      }
    }
  }

  lemma {:induction false} LargerShift(ns: int, k: nat)
    requires Shift(ns) <= k
    ensures ns / Pow2(k) <= 1024
    decreases k
  {
    if k == 0 {
      assert Pow2(0) == 1;
    } else if ns > ROUND_MASK {
      LargerShift(ns / 2, k - 1);
      DivHalfFirst(ns, Pow2(k - 1));
    } else {
      LargerShift(ns, k - 1);
      DivTwice(ns, Pow2(k - 1));
    }
  }

  // ---------------------------------------------------------------------
  // What the result promises

  /** Never up, exact up to 1024, and above that less than 1/512 of the input is lost. */
  lemma ErrorBound(ns: int)
    ensures Rounded(ns) <= ns
    ensures ns <= 1024 ==> Rounded(ns) == ns
    ensures ns > 1024 ==> 512 * (ns - Rounded(ns)) < ns
  {
    var p := Pow2(Shift(ns));
    Quotient(ns);
    DivBounds(ns, p);
    if ns > 1024 {
      MulLe(512, ns / p, p);
      assert (ns / p + 1) * p == ns / p * p + p;
    }
  }

  lemma {:induction false} Pow2Multiple(j: nat, k: nat)
    requires j <= k
    ensures exists c: nat :: c > 0 && Pow2(k) == c * Pow2(j)
    decreases k
  {
    if j == k {
      assert Pow2(k) == 1 * Pow2(j);
    } else {
      Pow2Multiple(j, k - 1);
      var c: nat :| c > 0 && Pow2(k - 1) == c * Pow2(j);
      assert Pow2(k) == (2 * c) * Pow2(j) by {
        assert (2 * c) * Pow2(j) == 2 * (c * Pow2(j));
      }
    }
  }

  lemma Monotone(m: int, n: int)
    requires m <= n
    ensures Rounded(m) <= Rounded(n)
  {
    ShiftMonotone(m, n);
    var p, q := Pow2(Shift(m)), Pow2(Shift(n));
    if Shift(m) == Shift(n) {
      DivMonotone(m, n, p);
      MulLe(m / p, n / p, p);
    } else {
      // m / q' <= 1024 for the smaller shift, and n's shift is larger, so n > 1024 * p.
      Quotient(m);
      Quotient(n);
      Pow2Multiple(Shift(m) + 1, Shift(n));
      var c: nat :| c > 0 && q == c * Pow2(Shift(m) + 1);
      assert q >= 2 * p by {
        MulLe(1, c, Pow2(Shift(m) + 1));
      }
      MulLe(512, n / q, q);
      MulLe(m / p, 1024, p);
    }
  }

  lemma Idempotent(ns: int)
    ensures Rounded(Rounded(ns)) == Rounded(ns)
  {
    hide Shift, Pow2;
    var r := Rounded(ns);
    ErrorBound(ns);
    ShiftMonotone(r, ns);
    var p, n := Pow2(Shift(r)), ns / Pow2(Shift(ns));
    Pow2Multiple(Shift(r), Shift(ns));
    var c: nat :| c > 0 && Pow2(Shift(ns)) == c * p;
    assert r == n * c * p by {
      MulAssociates(n, c, p);
    }
    DivExact(n * c, p);
  }

  lemma MulAssociates(a: int, b: int, c: int)
    ensures a * (b * c) == a * b * c
  {
  }

  lemma DivExact(q: int, p: int)
    requires p > 0
    ensures q * p / p == q
  {
    assert (q + 1) * p == q * p + p;
    DivUnique(q * p, p, q);
  }

  /**
   * The bound of 1/1024 is missed for every shift of two or more: the largest
   * input with quotient 512 loses all its low bits.
   */
  lemma WorstCase(k: nat)
    requires k >= 2
    ensures var ns := 513 * Pow2(k) - 1;
            Rounded(ns) == 512 * Pow2(k) && 1024 * (ns - Rounded(ns)) > ns
  {
    hide Shift;
    var p := Pow2(k - 1);
    var ns := 513 * (2 * p) - 1;
    assert p >= 2 by {
      assert p == 2 * Pow2(k - 2);
    }
    DivUnique(ns, 2 * p, 512);
    ShiftIsLeast(ns, k);
    DivUnique(ns, p, 1025);
    if Shift(ns) < k {
      LargerShift(ns, k - 1);
    }
  }

  /** The bound of 1/1024 holds up to 2050; 2051 is the first duration that misses it. */
  lemma FirstMiss(ns: int)
    requires 0 < ns <= 2051
    ensures 1024 * (ns - Rounded(ns)) < ns <==> ns != 2051
  {
    assert Pow2(1) == 2 && Pow2(2) == 4;
    assert Shift(512) == 0 && Shift(1025) == 1 + Shift(512);
    assert ns > 1024 ==> Shift(ns) == 1 + Shift(ns / 2);
    assert ns > 1024 && ns < 2050 ==> ns / 2 <= 1024;
    assert ns >= 2050 ==> ns / 2 == 1025;
    assert Shift(ns) == if ns <= 1024 then 0 else if ns < 2050 then 1 else 2;
  }

  // ---------------------------------------------------------------------
  // The conversion to float64

  /** Integers that float64 represents exactly: at most 53 significant bits. */
  ghost predicate Representable(x: int) {
    exists m: int, k: nat :: RepresentedBy(x, m, k)
  }

  predicate RepresentedBy(x: int, m: int, k: nat) { -0x20_0000_0000_0000 <= m <= 0x20_0000_0000_0000 && x == m * Pow2(k) }

  /** The result is converted exactly, unless a negative duration itself is not representable. */
  lemma ConversionIsExact(ns: int)
    ensures Representable(Rounded(ns)) <==> ns > 0 || Representable(ns)
  {
    if ns > 0 {
      Quotient(ns);
      DivPositive(ns, Pow2(Shift(ns)));
      assert RepresentedBy(Rounded(ns), ns / Pow2(Shift(ns)), Shift(ns));
    } else {
      ErrorBound(ns);
    }
  }

  lemma DivPositive(n: int, p: int)
    requires p > 0 && n > 0
    ensures n / p >= 0
  {
    DivMonotone(0, n, p);
    DivExact(0, p);
  }
}
