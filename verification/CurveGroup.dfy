/**
 The chord-and-tangent law on y^2 = x^3 + 3 over a prime field, which is what EIP-196 asks the ADD
 precompile to compute: the sum exists, is unique, stays on the curve and does not depend on the
 order of the operands.
 */
module CurveGroup {
  import opened PrimeField

  datatype Point = Infinity | Affine(x: int, y: int)

  predicate OnCurve(p: int, a: Point)
    requires p > 0
  {
    a.Affine? ==> 0 <= a.x < p && 0 <= a.y < p && Vanishes(p, Equation(a.x, a.y))
  }

  function Equation(x: int, y: int): int {
    y * y - x * x * x - 3
  }

  // `l` is the slope of the chord through two points, or of the tangent when they coincide.
  predicate Slope(p: int, a: Point, b: Point, l: int)
    requires p > 0 && a.Affine? && b.Affine?
  {
    if a.x != b.x then Vanishes(p, l * (b.x - a.x) - (b.y - a.y))
    else Vanishes(p, 2 * a.y * l - 3 * a.x * a.x)
  }

  // `r` is the third intersection of the line of slope `l`, reflected.
  predicate ThirdPoint(p: int, a: Point, b: Point, l: int, r: Point)
    requires p > 0 && a.Affine? && b.Affine?
  {
    && r.Affine? && 0 <= r.x < p && 0 <= r.y < p
    && Vanishes(p, r.x - (l * l - a.x - b.x))
    && Vanishes(p, r.y - (l * (a.x - r.x) - a.y))
  }

  ghost predicate OnLine(p: int, a: Point, b: Point, r: Point)
    requires p > 0 && a.Affine? && b.Affine?
  {
    exists l :: Slope(p, a, b, l) && ThirdPoint(p, a, b, l, r)
  }

  predicate Opposite(p: int, a: Point, b: Point)
    requires p > 0 && a.Affine? && b.Affine?
  {
    a.x == b.x && Vanishes(p, a.y + b.y)
  }

  /** `r` is the sum of `a` and `b` in the group of the curve. */
  ghost predicate IsSum(p: int, a: Point, b: Point, r: Point)
    requires p > 0
  {
    if a.Infinity? then r == b
    else if b.Infinity? then r == a
    else if Opposite(p, a, b) then r == Infinity
    else OnLine(p, a, b, r)
  }

  /** On the curve, two points above the same x are equal or opposite. */
  lemma SameX(p: int, a: Point, b: Point)
    requires Prime(p) && OnCurve(p, a) && OnCurve(p, b) && a.Affine? && b.Affine? && a.x == b.x
    ensures a == b || Opposite(p, a, b)
  {
    SumVanishes(p, Equation(a.x, a.y), Equation(b.x, b.y));
    assert Equation(a.x, a.y) - Equation(b.x, b.y) == (a.y - b.y) * (a.y + b.y);
    NoZeroDivisors(p, a.y - b.y, a.y + b.y);
    if Vanishes(p, a.y - b.y) { RangeIsExact(p, a.y, b.y); }
  }

  // The run of the line, whose inverse gives the slope.
  function Run(a: Point, b: Point): int
    requires a.Affine? && b.Affine?
  {
    if a.x != b.x then b.x - a.x else 2 * a.y
  }

  lemma RunDoesNotVanish(p: int, a: Point, b: Point)
    requires Prime(p) && p > 2 && OnCurve(p, a) && OnCurve(p, b) && a.Affine? && b.Affine?
    requires !Opposite(p, a, b)
    ensures !Vanishes(p, Run(a, b))
    ensures a.x == b.x ==> a == b
  {
    if a.x != b.x {
      if Vanishes(p, b.x - a.x) { RangeIsExact(p, b.x, a.x); }
    } else {
      SameX(p, a, b);
      assert a.y + a.y == 2 * a.y;
    }
  }

  // ---------------------------------------------------------------- uniqueness

  lemma SlopeIsUnique(p: int, a: Point, b: Point, l: int, m: int)
    requires Prime(p) && p > 2 && OnCurve(p, a) && OnCurve(p, b) && a.Affine? && b.Affine?
    requires !Opposite(p, a, b) && Slope(p, a, b, l) && Slope(p, a, b, m)
    ensures Vanishes(p, l - m)
  {
    RunDoesNotVanish(p, a, b);
    if a.x != b.x {
      SumVanishes(p, l * (b.x - a.x) - (b.y - a.y), m * (b.x - a.x) - (b.y - a.y));
      assert (l * (b.x - a.x) - (b.y - a.y)) - (m * (b.x - a.x) - (b.y - a.y)) == (l - m) * (b.x - a.x);
    } else {
      SumVanishes(p, 2 * a.y * l - 3 * a.x * a.x, 2 * a.y * m - 3 * a.x * a.x);
      assert (2 * a.y * l - 3 * a.x * a.x) - (2 * a.y * m - 3 * a.x * a.x) == (l - m) * (2 * a.y);
    }
    NoZeroDivisors(p, l - m, Run(a, b));
  }

  lemma ThirdPointIsUnique(p: int, a: Point, b: Point, l: int, m: int, r: Point, s: Point)
    requires p > 0 && a.Affine? && b.Affine? && Vanishes(p, l - m)
    requires ThirdPoint(p, a, b, l, r) && ThirdPoint(p, a, b, m, s)
    ensures r == s
  {
    ProductVanishes(p, l + m, l - m);
    var dx := (r.x - (l * l - a.x - b.x)) - (s.x - (m * m - a.x - b.x));
    SumVanishes(p, r.x - (l * l - a.x - b.x), s.x - (m * m - a.x - b.x));
    assert r.x - s.x == dx + (l + m) * (l - m);
    SumVanishes(p, dx, (l + m) * (l - m));
    RangeIsExact(p, r.x, s.x);
    var dy := (r.y - (l * (a.x - r.x) - a.y)) - (s.y - (m * (a.x - s.x) - a.y));
    SumVanishes(p, r.y - (l * (a.x - r.x) - a.y), s.y - (m * (a.x - s.x) - a.y));
    assert r.y - s.y == dy + (a.x - r.x) * (l - m);
    ProductVanishes(p, a.x - r.x, l - m);
    SumVanishes(p, dy, (a.x - r.x) * (l - m));
    RangeIsExact(p, r.y, s.y);
  }

  /** There is at most one sum. */
  lemma SumIsUnique(p: int, a: Point, b: Point, r: Point, s: Point)
    requires Prime(p) && p > 2 && OnCurve(p, a) && OnCurve(p, b)
    requires IsSum(p, a, b, r) && IsSum(p, a, b, s)
    ensures r == s
  {
    if a.Affine? && b.Affine? && !Opposite(p, a, b) {
      var l :| Slope(p, a, b, l) && ThirdPoint(p, a, b, l, r);
      var m :| Slope(p, a, b, m) && ThirdPoint(p, a, b, m, s);
      SlopeIsUnique(p, a, b, l, m);
      ThirdPointIsUnique(p, a, b, l, m, r, s);
    }
  }

  // ---------------------------------------------------------------- existence

  lemma Reduced(p: int, e: int)
    requires p > 0
    ensures 0 <= e % p < p && Vanishes(p, e % p - e)
  {
    assert e % p - e == p * -(e / p);
    MultipleVanishes(p, -(e / p));
  }

  lemma SlopeExists(p: int, a: Point, b: Point) returns (l: int)
    requires Prime(p) && a.Affine? && b.Affine? && !Vanishes(p, Run(a, b))
    ensures Slope(p, a, b, l)
  {
    var inv := Inverse(p, Run(a, b));
    var rise := if a.x != b.x then b.y - a.y else 3 * a.x * a.x;
    l := rise * inv;
    assert l * Run(a, b) - rise == rise * (Run(a, b) * inv - 1);
    ProductVanishes(p, rise, Run(a, b) * inv - 1);
    assert a.x == b.x ==> 2 * a.y * l - 3 * a.x * a.x == l * Run(a, b) - rise;
  }

  /** There is at least one sum. */
  lemma SumExists(p: int, a: Point, b: Point) returns (r: Point)
    requires Prime(p) && p > 2 && OnCurve(p, a) && OnCurve(p, b)
    ensures IsSum(p, a, b, r)
  {
    if a.Infinity? {
      r := b;
    } else if b.Infinity? {
      r := a;
    } else if Opposite(p, a, b) {
      r := Infinity;
    } else {
      RunDoesNotVanish(p, a, b);
      var l := SlopeExists(p, a, b);
      var x := (l * l - a.x - b.x) % p;
      var y := (l * (a.x - x) - a.y) % p;
      Reduced(p, l * l - a.x - b.x);
      Reduced(p, l * (a.x - x) - a.y);
      r := Affine(x, y);
      assert ThirdPoint(p, a, b, l, r);
    }
  }

  // ---------------------------------------------------------------- closure

  // The line through (x1, y1) of slope l meets the curve where this cubic vanishes.
  function Cubic(x1: int, y1: int, l: int, x: int): int {
    x * x * x + 3 - (l * (x - x1) + y1) * (l * (x - x1) + y1)
  }

  // What is left of that cubic once the roots x1, x2 and l^2 - x1 - x2 are divided out is linear.
  function Linear(x1: int, y1: int, x2: int, l: int): int {
    -2 * l * (y1 - l * x1) - (x1 * x2 + (x1 + x2) * (l * l - x1 - x2))
  }

  function Constant(x1: int, y1: int, x2: int, l: int): int {
    3 - (y1 - l * x1) * (y1 - l * x1) + x1 * x2 * (l * l - x1 - x2)
  }

  lemma TripleProduct(x: int, x1: int, x2: int, z: int)
    ensures (x - x1) * (x - x2) * (x - z)
         == x * x * x - (x1 + x2 + z) * (x * x) + (x1 * x2 + (x1 + x2) * z) * x - x1 * x2 * z
  {}

  lemma SquareOfLine(l: int, k: int, x: int)
    ensures (l * x + k) * (l * x + k) == l * l * (x * x) + 2 * l * k * x + k * k
  {}

  lemma CubicFactors(x1: int, y1: int, x2: int, l: int, x: int)
    ensures Cubic(x1, y1, l, x) == (x - x1) * (x - x2) * (x - (l * l - x1 - x2))
                                 + Linear(x1, y1, x2, l) * x + Constant(x1, y1, x2, l)
  {
    var k := y1 - l * x1;
    var z := l * l - x1 - x2;
    assert l * (x - x1) + y1 == l * x + k;
    SquareOfLine(l, k, x);
    TripleProduct(x, x1, x2, z);
    assert (x1 + x2 + z) * (x * x) == l * l * (x * x);
    assert Linear(x1, y1, x2, l) * x == -(2 * l * k * x) - (x1 * x2 + (x1 + x2) * z) * x;
  }

  lemma FirstRoot(x1: int, y1: int, x2: int, l: int)
    ensures Linear(x1, y1, x2, l) * x1 + Constant(x1, y1, x2, l) == -1 * Equation(x1, y1)
  {
    CubicFactors(x1, y1, x2, l, x1);
    assert (x1 - x1) * (x1 - x2) * (x1 - (l * l - x1 - x2)) == 0;
  }

  lemma SecondRoot(x1: int, y1: int, x2: int, y2: int, l: int)
    ensures Linear(x1, y1, x2, l) * x2 + Constant(x1, y1, x2, l)
         == -1 * Equation(x2, y2) + -(l * (x2 - x1) + y1 + y2) * (l * (x2 - x1) - (y2 - y1))
  {
    CubicFactors(x1, y1, x2, l, x2);
    assert (x2 - x1) * (x2 - x2) * (x2 - (l * l - x1 - x2)) == 0;
    var h := l * (x2 - x1) + y1;
    assert (h + y2) * (h - y2) == h * h - y2 * y2;
  }

  lemma DoubleRoot(x1: int, y1: int, l: int)
    ensures Linear(x1, y1, x1, l) == -1 * (2 * y1 * l - 3 * x1 * x1)
  {
    assert l * (y1 - l * x1) == l * y1 - l * l * x1;
    assert (x1 + x1) * (l * l - x1 - x1) == 2 * (l * l * x1) - 4 * (x1 * x1);
  }

  // For a chord the remainder has two roots; for a tangent it is the slope equation.
  lemma LinearVanishes(p: int, a: Point, b: Point, l: int)
    requires Prime(p) && p > 2 && OnCurve(p, a) && OnCurve(p, b) && a.Affine? && b.Affine?
    requires !Opposite(p, a, b) && Slope(p, a, b, l)
    requires Vanishes(p, Linear(a.x, a.y, b.x, l) * a.x + Constant(a.x, a.y, b.x, l))
    ensures Vanishes(p, Linear(a.x, a.y, b.x, l))
  {
    var u, v := Linear(a.x, a.y, b.x, l), Constant(a.x, a.y, b.x, l);
    RunDoesNotVanish(p, a, b);
    if a.x != b.x {
      SecondRoot(a.x, a.y, b.x, b.y, l);
      CombinationVanishes(p, -1, Equation(b.x, b.y),
                          -(l * (b.x - a.x) + a.y + b.y), l * (b.x - a.x) - (b.y - a.y));
      SumVanishes(p, u * b.x + v, u * a.x + v);
      assert (u * b.x + v) - (u * a.x + v) == u * (b.x - a.x);
      NoZeroDivisors(p, u, b.x - a.x);
    } else {
      DoubleRoot(a.x, a.y, l);
      ProductVanishes(p, -1, 2 * a.y * l - 3 * a.x * a.x);
    }
  }

  lemma RemainderVanishes(p: int, a: Point, b: Point, l: int)
    requires Prime(p) && p > 2 && OnCurve(p, a) && OnCurve(p, b) && a.Affine? && b.Affine?
    requires !Opposite(p, a, b) && Slope(p, a, b, l)
    ensures Vanishes(p, Linear(a.x, a.y, b.x, l)) && Vanishes(p, Constant(a.x, a.y, b.x, l))
  {
    var u, v := Linear(a.x, a.y, b.x, l), Constant(a.x, a.y, b.x, l);
    FirstRoot(a.x, a.y, b.x, l);
    ProductVanishes(p, -1, Equation(a.x, a.y));
    LinearVanishes(p, a, b, l);
    ProductVanishes(p, a.x, u);
    SumVanishes(p, u * a.x + v, a.x * u);
    assert (u * a.x + v) - a.x * u == v;
  }

  lemma ThirdPointOnCubic(p: int, a: Point, b: Point, l: int, r: Point)
    requires Prime(p) && p > 2 && OnCurve(p, a) && OnCurve(p, b) && a.Affine? && b.Affine?
    requires !Opposite(p, a, b) && Slope(p, a, b, l) && ThirdPoint(p, a, b, l, r)
    ensures Vanishes(p, Cubic(a.x, a.y, l, r.x))
  {
    var u, v := Linear(a.x, a.y, b.x, l), Constant(a.x, a.y, b.x, l);
    RemainderVanishes(p, a, b, l);
    CubicFactors(a.x, a.y, b.x, l, r.x);
    var z := r.x - (l * l - a.x - b.x);
    ProductVanishes(p, (r.x - a.x) * (r.x - b.x), z);
    CombinationVanishes(p, r.x, u, 1, v);
    SumVanishes(p, (r.x - a.x) * (r.x - b.x) * z, r.x * u + 1 * v);
    assert u * r.x == r.x * u;
  }

  lemma Reflected(x1: int, y1: int, l: int, x: int, y: int)
    ensures Equation(x, y) == (y - (l * (x - x1) + y1)) * (y - (l * (x1 - x) - y1)) + -1 * Cubic(x1, y1, l, x)
  {
    var h := l * (x - x1) + y1;
    assert y - (l * (x1 - x) - y1) == y + h;
    assert (y - h) * (y + h) == y * y - h * h;
  }

  /** The sum of two points of the curve is a point of the curve. */
  lemma SumIsOnCurve(p: int, a: Point, b: Point, r: Point)
    requires Prime(p) && p > 2 && OnCurve(p, a) && OnCurve(p, b) && IsSum(p, a, b, r)
    ensures OnCurve(p, r)
  {
    if a.Affine? && b.Affine? && !Opposite(p, a, b) {
      var l :| Slope(p, a, b, l) && ThirdPoint(p, a, b, l, r);
      ThirdPointOnCubic(p, a, b, l, r);
      Reflected(a.x, a.y, l, r.x, r.y);
      CombinationVanishes(p, r.y - (l * (r.x - a.x) + a.y), r.y - (l * (a.x - r.x) - a.y),
                          -1, Cubic(a.x, a.y, l, r.x));
    }
  }

  // ---------------------------------------------------------------- commutativity

  /** Swapping the operands does not change the sum. */
  lemma SumIsCommutative(p: int, a: Point, b: Point, r: Point)
    requires Prime(p) && p > 2 && OnCurve(p, a) && OnCurve(p, b) && IsSum(p, a, b, r)
    ensures IsSum(p, b, a, r)
  {
    if a.Affine? && b.Affine? {
      assert a.y + b.y == b.y + a.y;
      if !Opposite(p, a, b) {
        RunDoesNotVanish(p, a, b);
        if a.x != b.x {
          var l :| Slope(p, a, b, l) && ThirdPoint(p, a, b, l, r);
          ChordReversed(p, a, b, l, r);
        }
      }
    }
  }

  lemma ChordReversed(p: int, a: Point, b: Point, l: int, r: Point)
    requires p > 0 && a.Affine? && b.Affine? && a.x != b.x
    requires Slope(p, a, b, l) && ThirdPoint(p, a, b, l, r)
    ensures Slope(p, b, a, l) && ThirdPoint(p, b, a, l, r)
  {
    var s := l * (b.x - a.x) - (b.y - a.y);
    ProductVanishes(p, -1, s);
    assert l * (a.x - b.x) - (a.y - b.y) == -1 * s;
    var e := r.y - (l * (a.x - r.x) - a.y);
    assert r.y - (l * (b.x - r.x) - b.y) == 1 * e + -1 * s;
    CombinationVanishes(p, 1, e, -1, s);
    assert l * l - a.x - b.x == l * l - b.x - a.x;
  }

  // ---------------------------------------------------------------- multiples

  /** `r` is `a` added to infinity `n` times. */
  ghost predicate Multiple(p: int, a: Point, n: nat, r: Point)
    requires p > 0
    decreases n
  {
    if n == 0 then r == Infinity else exists q :: Multiple(p, a, n - 1, q) && IsSum(p, q, a, r)
  }

  // A point on the x axis has order two.
  lemma {:induction false} AxisMultiples(p: int, a: Point, n: nat, r: Point)
    requires p > 0 && a.Affine? && a.y == 0 && Multiple(p, a, n, r)
    ensures r == if n % 2 == 0 then Infinity else a
    decreases n
  {
    if n == 0 {
    } else {
      var q :| Multiple(p, a, n - 1, q) && IsSum(p, q, a, r);
      AxisMultiples(p, a, n - 1, q);
      assert Vanishes(p, a.y + a.y) by { MultipleVanishes(p, 0); }
    }
  }

  /** A point that an odd number annihilates is off the x axis. */
  lemma OddOrderIsOffTheAxis(p: int, a: Point, n: nat)
    requires p > 0 && a.Affine? && n % 2 == 1 && Multiple(p, a, n, Infinity)
    ensures a.y != 0
  {
    if a.y == 0 { AxisMultiples(p, a, n, Infinity); }
  }
}
