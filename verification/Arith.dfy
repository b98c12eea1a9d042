/** Facts about division and the signed remainder that several components need. */
module Arith {
  import opened Ir

  function Abs(a: int): nat { if a >= 0 then a else -a }

  lemma MulAtLeast(z: int, d: int)
    requires z >= 1 && d > 0
    ensures z * d >= d
  {
    assert (z - 1) * d >= 0;
  }

  lemma DistributeDiff(a: int, b: int, d: int)
    ensures (a - b) * d == a * d - b * d
  {
  }

  /** Quotient and remainder are determined by the division equation. */
  lemma UniqueDivMod(n: int, d: int, q: int, r: int)
    requires d > 0 && n == q * d + r && 0 <= r < d
    ensures n / d == q && n % d == r
  {
    var q', r' := n / d, n % d;
    assert n == d * q' + r';
    assert d * q' == q' * d;
    DistributeDiff(q, q', d);
    DistributeDiff(q', q, d);
    if q > q' {
      MulAtLeast(q - q', d);
    } else if q < q' {
      MulAtLeast(q' - q, d);
    }
  }

  lemma DivModEquation(n: int, d: int)
    requires d > 0
    ensures n == (n / d) * d + n % d && 0 <= n % d < d
  {
  }

  lemma ModScales(p: nat, d: nat, g: nat)
    requires d > 0 && g > 0
    ensures d * g > 0 && (p * g) % (d * g) == (p % d) * g
  {
    var q, r := p / d, p % d;
    DivModEquation(p, d);
    MulAtLeast(d, g);
    calc {
      p * g;
      (q * d + r) * g;
      q * d * g + r * g;
      q * (d * g) + r * g;
    }
    MulAtLeast(d - r, g);
    DistributeDiff(d, r, g);
    UniqueDivMod(p * g, d * g, q, r * g);
  }

  /** The signed remainder in terms of magnitudes: only the sign of the dividend matters. */
  lemma RemMagnitude(a: int, m: int)
    requires m != 0
    ensures TruncRem(a, m) == if a >= 0 then Abs(a) % Abs(m) else -(Abs(a) % Abs(m))
  {
  }

  lemma RemNegates(a: int, m: int)
    ensures TruncRem(-a, m) == -TruncRem(a, m)
  {
    if m != 0 {
      RemMagnitude(a, m);
      RemMagnitude(-a, m);
      if a == 0 { assert 0 % Abs(m) == 0; }
    }
  }

  lemma AbsProduct(a: int, f: int)
    ensures Abs(a * f) == Abs(a) * Abs(f)
  {
    if a >= 0 && f >= 0 { assert a * f >= 0; }
    else if a >= 0 { assert a * (-f) >= 0; assert a * (-f) == -(a * f); }
    else if f >= 0 { assert (-a) * f >= 0; assert (-a) * f == -(a * f); }
    else { assert (-a) * (-f) >= 0; assert (-a) * (-f) == a * f; }
  }

  lemma ProductSign(a: int, f: int, r: int)
    requires a != 0 && f != 0
    ensures (if a * f >= 0 then r * Abs(f) else -(r * Abs(f))) == (if a >= 0 then r else -r) * f
  {
    if a > 0 && f > 0 { MulAtLeast(a, f); }
    else if a > 0 { MulAtLeast(a, -f); assert a * (-f) == -(a * f); assert r * (-f) == -(r * f); }
    else if f > 0 { MulAtLeast(-a, f); assert (-a) * f == -(a * f); assert (-r) * f == -(r * f); }
    else { MulAtLeast(-a, -f); assert (-a) * (-f) == a * f; assert r * (-f) == (-r) * f; }
  }

  /** Scaling a wrapped value scales its bound as well, so the factor must not be zero. */
  lemma RemScales(a: int, m: int, f: int)
    requires f != 0
    ensures TruncRem(a * f, m * f) == TruncRem(a, m) * f
  {
    if m == 0 {
      assert m * f == 0;
    } else {
      AbsProduct(a, f);
      AbsProduct(m, f);
      ModScales(Abs(a), Abs(m), Abs(f));
      assert m * f != 0;
      RemMagnitude(a, m);
      RemMagnitude(a * f, m * f);
      if a == 0 {
        assert 0 % Abs(m) == 0;
      } else {
        ProductSign(a, f, Abs(a) % Abs(m));
      }
    }
  }
}
