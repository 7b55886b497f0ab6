/** The limits of C's 32-bit integers; products and quotients of naturals. */
module Arithmetic {

  const INT_LIMIT: nat := 0x8000_0000
  const UINT_LIMIT: nat := 0x1_0000_0000

  lemma MulMonotone(a: nat, b: nat, c: nat)
    requires a <= b
    ensures a * c <= b * c
  {
    assert b * c == a * c + (b - a) * c;
  }

  lemma MulCancel(a: nat, b: nat, c: nat)
    requires c > 0 && a * c <= b * c
    ensures a <= b
  {
    assert (b + 1) * c == b * c + c;
    if b < a {
      MulMonotone(b + 1, a, c);
    }
  }

  lemma DivBounds(a: nat, d: nat)
    requires d > 0
    ensures a / d * d <= a < a / d * d + d && a / d <= a
  {
    var q, r := a / d, a % d;
    assert a == q * d + r;
    MulMonotone(1, d, q);
  }

  lemma {:induction false} DivAtMost(a: nat, d: nat)
    requires d > 0
    ensures a / d <= a
  {
    DivBounds(a, d);
  }

  lemma QuotientBounds(a: nat, b: nat, u: nat)
    requires u > 0
    ensures b * u <= a <==> b <= a / u
  {
    var q := a / u;
    DivBounds(a, u);
    assert (q + 1) * u == q * u + u;
    if b <= q {
      MulMonotone(b, q, u);
    } else {
      MulMonotone(q + 1, b, u);
    }
  }

  /** A time between `u` and `64 * u` ahead lies one to 64 spans of `u` ahead. */
  lemma SpansAhead(now: nat, e: nat, u: nat)
    requires u > 0 && u <= e - now < 64 * u
    ensures now / u + 1 <= e / u < (now + u - 1) / u + 64
    ensures now / u <= (now + u - 1) / u <= now / u + 1
  {
    var p, c := now / u, (now + u - 1) / u;
    QuotientBounds(now, p, u);
    QuotientBounds(now, p + 1, u);
    QuotientBounds(now + u - 1, p, u);
    QuotientBounds(now + u - 1, p + 2, u);
    QuotientBounds(now + u - 1, c + 1, u);
    QuotientBounds(e, p + 1, u);
    QuotientBounds(e, c + 64, u);
    AddMul(p, 1, u);
    AddMul(p, 2, u);
    AddMul(c, 1, u);
    AddMul(c, 64, u);
  }

  lemma AddMul(a: nat, b: nat, u: nat)
    ensures (a + b) * u == a * u + b * u
  {
  }

  lemma LessCancel(a: nat, b: nat, c: nat)
    requires a * c < b * c
    ensures a < b
  {
    if b <= a {
      MulMonotone(b, a, c);
    }
  }

  lemma {:induction false} DivOfMul(q: nat, u: nat)
    requires u > 0
    ensures q * u / u == q && q * u % u == 0
  {
    var d := q * u / u;
    assert d * u <= q * u < (d + 1) * u by {
      DivBounds(q * u, u);
      AddMul(d, 1, u);
    }
    LessCancel(q, d + 1, u);
    MulCancel(d, q, u);
  }
}
