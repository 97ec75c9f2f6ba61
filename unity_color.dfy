/**
 * UnityEngine's `Color`, `Mathf.Clamp01`, `Mathf.InverseLerp` and `Color.Lerp`, over exact reals
 * instead of 32-bit floats.
 */
module UnityColor {

  datatype Color = Color(r: real, g: real, b: real, a: real)

  /** z lies on the closed segment between x and y (in either order). */
  predicate Between(x: real, y: real, z: real) { (x <= z <= y) || (y <= z <= x) }

  /** Every channel of c lies between the same channel of x and of y. */
  predicate ColorBetween(x: Color, y: Color, c: Color)
  {
    Between(x.r, y.r, c.r) && Between(x.g, y.g, c.g) && Between(x.b, y.b, c.b) && Between(x.a, y.a, c.a)
  }

  function Clamp01(x: real): (y: real)
    ensures 0.0 <= y <= 1.0
    ensures 0.0 <= x <= 1.0 ==> y == x
    ensures x < 0.0 ==> y == 0.0
    ensures x > 1.0 ==> y == 1.0
  {
    if x < 0.0 then 0.0 else if x > 1.0 then 1.0 else x
  }

  /** Where v lies between a and b, as a fraction in [0, 1]; 0 when a == b. */
  function InverseLerp(a: real, b: real, v: real): (t: real)
    ensures 0.0 <= t <= 1.0
    ensures a == b || v == a ==> t == 0.0
    ensures a != b && v == b ==> t == 1.0
    ensures a != b && Between(a, b, v) ==> t * (b - a) == v - a
    ensures (a < b && v <= a) || (a > b && v >= a) ==> t == 0.0
    ensures (a < b && v >= b) || (a > b && v <= b) ==> t == 1.0
  {
    if a != b then
      var q := (v - a) / (b - a);
      FractionInUnit(a, b, v);
      FractionOutside(a, b, v);
      Clamp01(q)
    else
      0.0
  }

  lemma MulNonNegative(x: real, y: real)
    requires x >= 0.0 && y >= 0.0
    ensures x * y >= 0.0
  {
  }

  lemma MulPositive(x: real, y: real)
    requires x > 0.0 && y > 0.0
    ensures x * y > 0.0
  {
  }

  /** A factor d with d * q == p, for 0 <= p <= q, lies in [0, 1]. */
  lemma FactorInUnit(d: real, p: real, q: real)
    requires q > 0.0 && d * q == p && 0.0 <= p <= q
    ensures 0.0 <= d <= 1.0
  {
    if d < 0.0 { MulPositive(-d, q); assert false; }
    if d > 1.0 { MulPositive(d - 1.0, q); assert false; }
  }

  /** A product is zero only when a factor is. */
  lemma ProductZero(x: real, y: real)
    requires x * y == 0.0 && y != 0.0
    ensures x == 0.0
  {
    if x > 0.0 && y > 0.0 { MulPositive(x, y); }
    if x > 0.0 && y < 0.0 { MulPositive(x, -y); }
    if x < 0.0 && y > 0.0 { MulPositive(-x, y); }
    if x < 0.0 && y < 0.0 { MulPositive(-x, -y); }
  }

  lemma FractionInUnit(a: real, b: real, v: real)
    requires a != b
    ensures (v - a) / (b - a) * (b - a) == v - a
    ensures Between(a, b, v) ==> 0.0 <= (v - a) / (b - a) <= 1.0
    ensures v == a ==> (v - a) / (b - a) == 0.0
    ensures v == b ==> (v - a) / (b - a) == 1.0
  {
    var d := (v - a) / (b - a);
    assert d * (b - a) == v - a;
    if v == a {
      ProductZero(d, b - a);
    }
    if v == b {
      assert (d - 1.0) * (b - a) == d * (b - a) - (b - a);
      ProductZero(d - 1.0, b - a);
    }
    if Between(a, b, v) {
      if a < b {
        FactorInUnit(d, v - a, b - a);
      } else {
        assert d * (a - b) == a - v;
        FactorInUnit(d, a - v, a - b);
      }
    }
  }

  /** A quotient by a positive q is at most 0 for p <= 0 and at least 1 for p >= q. */
  lemma QuotientOutside(p: real, q: real)
    requires q > 0.0
    ensures p <= 0.0 ==> p / q <= 0.0
    ensures p >= q ==> p / q >= 1.0
  {
    var d := p / q;
    assert d * q == p;
    if p <= 0.0 && d > 0.0 { MulPositive(d, q); assert false; }
    if p >= q && d < 1.0 { MulPositive(1.0 - d, q); assert false; }
  }

  /** Before a (on the side away from b) the fraction is at most 0; beyond b it is at least 1. */
  lemma FractionOutside(a: real, b: real, v: real)
    requires a != b
    ensures (a < b && v <= a) || (a > b && v >= a) ==> (v - a) / (b - a) <= 0.0
    ensures (a < b && v >= b) || (a > b && v <= b) ==> (v - a) / (b - a) >= 1.0
  {
    if a < b {
      QuotientOutside(v - a, b - a);
    } else {
      assert (v - a) / (b - a) == (a - v) / (a - b);
      QuotientOutside(a - v, a - b);
    }
  }

  /** One channel of Lerp: between the end points, the weighted sum of them. */
  function Mix(x: real, y: real, u: real): (z: real)
    requires 0.0 <= u <= 1.0
    ensures Between(x, y, z)
    ensures z == (1.0 - u) * x + u * y
    ensures u == 0.0 ==> z == x
    ensures u == 1.0 ==> z == y
  {
    ChannelBetween(x, y, u);
    x + (y - x) * u
  }

  lemma ChannelBetween(x: real, y: real, t: real)
    requires 0.0 <= t <= 1.0
    ensures Between(x, y, x + (y - x) * t)
  {
    if x <= y {
      MulNonNegative(y - x, t);
      MulNonNegative(y - x, 1.0 - t);
    } else {
      MulNonNegative(x - y, t);
      MulNonNegative(x - y, 1.0 - t);
    }
  }

  /** Channel-wise linear interpolation from x (t = 0) to y (t = 1), t clamped to [0, 1]. */
  function Lerp(x: Color, y: Color, t: real): (c: Color)
    ensures t <= 0.0 ==> c == x
    ensures t >= 1.0 ==> c == y
    ensures ColorBetween(x, y, c)
    ensures 0.0 <= t <= 1.0 ==>
      c.r == (1.0 - t) * x.r + t * y.r && c.g == (1.0 - t) * x.g + t * y.g &&
      c.b == (1.0 - t) * x.b + t * y.b && c.a == (1.0 - t) * x.a + t * y.a
  {
    var u := Clamp01(t);
    Color(Mix(x.r, y.r, u), Mix(x.g, y.g, u), Mix(x.b, y.b, u), Mix(x.a, y.a, u))
  }
}
