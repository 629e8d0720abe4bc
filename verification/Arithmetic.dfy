/** Products, quotients, remainders and powers of natural numbers. */
module Arithmetic {
  function Pow2(n: nat): (r: nat)
    ensures 0 < r
  {
    if n == 0 then 1 else 2 * Pow2(n - 1)
  }

  lemma MultipleOf(x: nat, m: nat)
    requires 0 < m && x % m == 0
    ensures x == m * (x / m)
  {
  }

  lemma DivRange(r: nat, s: nat)
    requires 0 < s
    ensures (r / s) * s <= r < (r / s) * s + s
  {
  }

  lemma MulStep(i: nat, j: nat, s: nat)
    requires i < j
    ensures i * s + s <= j * s
  {
    assert (i + 1) * s <= j * s;
  }

  lemma MulShuffle(a: nat, s: nat, k: nat)
    ensures (a * s) * k == s * (a * k)
  {
  }

  lemma MulSum(s: nat, x: nat, y: nat)
    ensures s * (x + y) == s * x + y * s
  {
  }

  lemma ModOfMultiple(s: nat, x: nat)
    requires 0 < s
    ensures (s * x) % s == 0
  {
    ModAddMultiple(0, s, x);
  }

  lemma DivBound(r: nat, s: nat, f: nat)
    requires 0 < s && r < f * s
    ensures r / s < f
  {
    var q := r / s;
    assert q * s <= r;
    if f <= q {
      MulMonotone(f, q, s);
    }
  }

  lemma MulMonotone(i: nat, j: nat, s: nat)
    requires i <= j
    ensures i * s <= j * s
  {
  }

  lemma {:induction false} DivAddMultiple(r: nat, s: nat, m: nat)
    requires 0 < s
    ensures (s * m + r) / s == r / s + m
  {
    var q := r / s;
    assert r == s * q + r % s;
    assert s * m + r == s * (q + m) + r % s;
    DivUnique(s * m + r, s, q + m, r % s);
  }

  lemma {:induction false} ModAddMultiple(r: nat, s: nat, m: nat)
    requires 0 < s
    ensures (s * m + r) % s == r % s
  {
    var q := r / s;
    assert s * m + r == s * (q + m) + r % s;
    DivUnique(s * m + r, s, q + m, r % s);
  }

  lemma DivUnique(x: nat, s: nat, q: nat, r: nat)
    requires 0 < s && r < s && x == s * q + r
    ensures x / s == q && x % s == r
  {
    var q' := x / s;
    if q' < q {
      MulStep(q', q, s);
    } else if q < q' {
      MulStep(q, q', s);
    }
  }

  lemma SmallMod(q: nat, fanout: nat, k: nat)
    requires q < fanout
    ensures (q + fanout * k) % fanout == q
  {
    ModAddMultiple(q, fanout, k);
  }

  /** Multiplying by a positive number keeps the order. */
  lemma MulOrder(size: nat, x: nat, y: nat)
    requires 0 < size
    ensures x * size <= y * size <==> x <= y
  {
    if x <= y {
      MulMonotone(x, y, size);
    } else {
      MulStep(y, x, size);
    }
  }

  function Quotient(a: nat, m: nat): nat
    requires 0 < m
  {
    a / m
  }

  lemma QuotientRange(x: nat, m: nat)
    requires 0 < m
    ensures Quotient(x, m) * m <= x < Quotient(x, m) * m + m
  {
    DivRange(x, m);
  }

  lemma QuotientUnique(x: nat, m: nat, q: nat)
    requires 0 < m && q * m <= x < q * m + m
    ensures Quotient(x, m) == q
  {
    DivUnique(x, m, q, x - q * m);
  }

  lemma DivDiv(x: nat, a: nat, b: nat)
    requires 0 < a && 0 < b && 0 < b * a
    ensures Quotient(Quotient(x, a), b) == Quotient(x, b * a)
  {
    hide Quotient;
    var y := Quotient(x, a);
    var z := Quotient(y, b);
    QuotientRange(x, a);
    QuotientRange(y, b);
    MulMonotone(z * b, y, a);
    MulMonotone(y + 1, z * b + b, a);
    Regroup(z, b, a);
    QuotientUnique(x, b * a, z);
  }

  lemma Regroup(z: nat, b: nat, a: nat)
    ensures (z * b) * a == z * (b * a) && (z * b + b) * a == z * (b * a) + b * a
  {
    MulSum(a, z * b, b);
  }
}
