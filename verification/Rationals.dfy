/** Arithmetic keeps within the rational numbers. */
module Rationals {
  import opened Values

  lemma IntegerIsRational(i: int)
    ensures IsRational(i as real)
  {
    assert Ratio(i, 1) == i as real;
  }

  lemma CrossMultiplied(x: real, y: real, a: real, b: real)
    requires a > 0.0 && b > 0.0
    ensures a * b > 0.0 && x / a + y / b == (x * b + y * a) / (a * b)
  {
    assert x / a == (x * b) / (a * b) by {
      assert (x / a) * (a * b) == x * b;
    }
    assert y / b == (y * a) / (a * b) by {
      assert (y / b) * (a * b) == y * a;
    }
  }

  lemma SumIsRational(r: real, s: real)
    requires IsRational(r) && IsRational(s)
    ensures IsRational(r + s)
  {
    var p, q :| q > 0 && r == Ratio(p, q);
    var m, n :| n > 0 && s == Ratio(m, n);
    CrossMultiplied(p as real, m as real, q as real, n as real);
    assert q * n > 0;
    assert (q * n) as real == q as real * n as real;
    assert (p * n + m * q) as real == p as real * n as real + m as real * q as real;
    assert r + s == Ratio(p * n + m * q, q * n);
  }

  lemma NegatedIsRational(r: real)
    requires IsRational(r)
    ensures IsRational(-r)
  {
    var p, q :| q > 0 && r == Ratio(p, q);
    assert -r == Ratio(-p, q);
  }

  lemma DifferenceIsRational(r: real, s: real)
    requires IsRational(r) && IsRational(s)
    ensures IsRational(r - s)
  {
    NegatedIsRational(s);
    SumIsRational(r, -s);
  }

  lemma QuotientIsRational(r: real, count: int)
    requires IsRational(r) && count > 0
    ensures IsRational(r / count as real)
  {
    var p, q :| q > 0 && r == Ratio(p, q);
    assert q * count > 0 && (q * count) as real == q as real * count as real;
    assert r / count as real == Ratio(p, q * count) by {
      var a, b := q as real, count as real;
      assert ((p as real / a) / b) * (a * b) == p as real;
    }
  }
}
