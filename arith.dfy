/** Small facts about multiplication and division that the solver does not
    find on its own once other facts are in scope. */
module Arith {

  /** Dividing by a positive number keeps a value between the same multiples. */
  lemma QuotientBetween(x: real, c: real, lo: real, hi: real)
    requires c > 0.0 && lo * c <= x < hi * c
    ensures lo <= x / c < hi
  {
    var q := x / c;
    assert q * c == x;
    if q < lo {
      ScaleStrict(q, lo, c);
    }
    if hi <= q {
      ScaleWeak(hi, q, c);
    }
  }

  lemma ScaleStrict(a: real, b: real, c: real)
    requires a < b && c > 0.0
    ensures a * c < b * c
  {
    assert b * c - a * c == (b - a) * c;
  }

  lemma ScaleWeak(a: real, b: real, c: real)
    requires a <= b && c >= 0.0
    ensures a * c <= b * c
  {
    assert b * c - a * c == (b - a) * c;
  }

  /** A fraction of a non-negative amount is at most the amount. */
  lemma DivideWeak(a: real, b: real, c: real)
    requires a <= b && c > 0.0
    ensures a / c <= b / c
  {
    ScaleWeak(a, b, 1.0 / c);
    assert a / c == a * (1.0 / c);
    assert b / c == b * (1.0 / c);
  }

  /** A product kept as one term, so that sums over it stay linear for the
      solver. */
  function Scaled(t: real, d: real): real {
    t * d
  }

  lemma ScaledFraction(t: real, d: real)
    requires 0.0 <= t <= 1.0 && d >= 0.0
    ensures 0.0 <= Scaled(t, d) <= d
  {
    ScaleWeak(0.0, t, d);
    ScaleWeak(t, 1.0, d);
  }

  lemma ScaledMonotone(a: real, b: real, d: real)
    requires a <= b && d >= 0.0
    ensures Scaled(a, d) <= Scaled(b, d)
  {
    ScaleWeak(a, b, d);
  }

  lemma ScaleWeakInt(a: int, b: int, c: nat)
    requires a <= b
    ensures a * c <= b * c
  {
    assert b * c - a * c == (b - a) * c;
  }

  /** `num * n / den` stays at most `n` for `num <= den`. */
  lemma ScaledIndexBound(num: nat, n: nat, den: nat)
    requires 0 < den && num <= den
    ensures num * n / den <= n
  {
    var p := num * n;
    var q := p / den;
    assert p == q * den + p % den;
    ScaleWeakInt(num, den, n);
    assert p <= den * n;
    if q > n {
      ScaleWeakInt(n + 1, q, den);
    }
  }

  /** Integer division by a positive number is monotone. */
  lemma DivMonotone(a: nat, b: nat, den: nat)
    requires 0 < den && a <= b
    ensures a / den <= b / den
  {
    var qa, qb := a / den, b / den;
    assert a == qa * den + a % den;
    assert b == qb * den + b % den;
    if qa > qb {
      ScaleWeakInt(qb + 1, qa, den);
    }
  }

  /** Division and remainder are determined by `q * d + r` with `r < d`. */
  lemma DivExact(q: nat, r: nat, d: nat)
    requires r < d
    ensures (q * d + r) / d == q && (q * d + r) % d == r
  {
    var a := q * d + r;
    var qa := a / d;
    assert a == qa * d + a % d;
    if qa > q {
      ScaleWeakInt(q + 1, qa, d);
    }
    if qa < q {
      ScaleWeakInt(qa + 1, q, d);
    }
  }
}
