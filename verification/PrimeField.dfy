/**
 Congruences modulo a prime, written on plain integers: `Vanishes(p, a)` says that `a` is zero in the
 field of `p` elements. What the curve arithmetic needs is proved from primality alone.
 */
module PrimeField {

  ghost predicate Prime(p: int) {
    p > 1 && forall d :: 1 < d < p ==> p % d != 0
  }

  predicate Vanishes(p: int, a: int)
    requires p > 0
  {
    a % p == 0
  }

  lemma MultipleIsFar(p: int, k: int)
    requires p > 0
    ensures k >= 1 ==> p * k >= p
    ensures k <= -1 ==> p * k <= -p
  {}

  lemma MultipleVanishes(p: int, k: int)
    requires p > 0
    ensures Vanishes(p, p * k)
  {
    var q, r := (p * k) / p, (p * k) % p;
    assert p * k == p * q + r;
    assert p * (k - q) == r;
    MultipleIsFar(p, k - q);
  }

  lemma SumVanishes(p: int, a: int, b: int)
    requires p > 0 && Vanishes(p, a) && Vanishes(p, b)
    ensures Vanishes(p, a + b) && Vanishes(p, a - b)
  {
    assert a + b == p * (a / p + b / p);
    assert a - b == p * (a / p - b / p);
    MultipleVanishes(p, a / p + b / p);
    MultipleVanishes(p, a / p - b / p);
  }

  lemma ProductVanishes(p: int, c: int, a: int)
    requires p > 0 && Vanishes(p, a)
    ensures Vanishes(p, c * a)
  {
    assert c * a == p * (c * (a / p));
    MultipleVanishes(p, c * (a / p));
  }

  // A linear combination of two vanishing terms.
  lemma CombinationVanishes(p: int, c: int, a: int, d: int, b: int)
    requires p > 0 && Vanishes(p, a) && Vanishes(p, b)
    ensures Vanishes(p, c * a + d * b)
  {
    ProductVanishes(p, c, a);
    ProductVanishes(p, d, b);
    SumVanishes(p, c * a, d * b);
  }

  /** Elements of the field are equal when their difference vanishes. */
  lemma RangeIsExact(p: int, a: int, b: int)
    requires p > 0 && 0 <= a < p && 0 <= b < p && Vanishes(p, a - b)
    ensures a == b
  {
    var k := (a - b) / p;
    assert a - b == p * k;
    MultipleIsFar(p, k);
  }

  // Bezout coefficients by Euclid's algorithm.
  lemma {:induction false} Bezout(a: int, b: int) returns (g: int, x: int, y: int)
    requires a >= 0 && b > 0
    ensures g > 0 && g == a * x + b * y && a % g == 0 && b % g == 0
    decreases a
  {
    if a == 0 {
      g, x, y := b, 0, 1;
      assert b == b * 1 && b % b == 0 by { MultipleVanishes(b, 1); }
    } else {
      var q, r := b / a, b % a;
      assert b == a * q + r;
      g, x, y := Bezout(r, a);
      assert Vanishes(g, q * a + 1 * r) by { CombinationVanishes(g, q, a, 1, r); }
      assert g == r * x + a * y == (b - a * q) * x + a * y == a * (y - q * x) + b * x by {
        assert (b - a * q) * x == b * x - a * (q * x);
        assert a * (y - q * x) == a * y - a * (q * x);
      }
      x, y := y - q * x, x;
    }
  }

  /** Every element that does not vanish has an inverse. */
  lemma Inverse(p: int, a: int) returns (inv: int)
    requires Prime(p) && !Vanishes(p, a)
    ensures Vanishes(p, a * inv - 1)
  {
    var r := a % p;
    var g, x, y := Bezout(r, p);
    assert r == g * (r / g);
    MultipleIsFar(g, r / g);
    inv := x;
    assert a == p * (a / p) + r;
    assert a * x == p * ((a / p) * x) + r * x;
    assert a * x - 1 == p * ((a / p) * x - y) by {
      assert p * ((a / p) * x - y) == p * ((a / p) * x) - p * y;
    }
    MultipleVanishes(p, (a / p) * x - y);
  }

  /** A product vanishes only when a factor does. */
  lemma NoZeroDivisors(p: int, a: int, b: int)
    requires Prime(p) && Vanishes(p, a * b)
    ensures Vanishes(p, a) || Vanishes(p, b)
  {
    if !Vanishes(p, a) {
      var inv := Inverse(p, a);
      assert b == inv * (a * b) + (-b) * (a * inv - 1) by {
        assert inv * (a * b) == b * (a * inv);
        assert (-b) * (a * inv - 1) == b - b * (a * inv);
      }
      CombinationVanishes(p, inv, a * b, -b, a * inv - 1);
    }
  }
}
