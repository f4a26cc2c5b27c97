/**
 The assumptions of module Bn254Add are consistent: over the field of thirteen elements the curve has
 nine points, three times any of them is infinity, and the two curve operations exist.
 */
module HostWitness {
  import opened Bytes
  import opened PrimeField
  import opened CurveGroup
  import opened Bn254Add

  // ---------------------------------------------------------------- the points of the curve

  function Square(y: int): int { y * y }

  function Cube(x: int): int { x * x * x }

  lemma SquaresMod13()
    ensures Square(0) % 13 == 0 && Square(1) % 13 == 1 && Square(2) % 13 == 4 && Square(3) % 13 == 9
    ensures Square(4) % 13 == 3 && Square(5) % 13 == 12 && Square(6) % 13 == 10 && Square(7) % 13 == 10
    ensures Square(8) % 13 == 12 && Square(9) % 13 == 3 && Square(10) % 13 == 9 && Square(11) % 13 == 4
    ensures Square(12) % 13 == 1
  {}

  lemma CubesMod13()
    ensures Cube(0) % 13 == 0 && Cube(1) % 13 == 1 && Cube(2) % 13 == 8 && Cube(3) % 13 == 1
    ensures Cube(4) % 13 == 12 && Cube(5) % 13 == 8 && Cube(6) % 13 == 8 && Cube(7) % 13 == 5
    ensures Cube(8) % 13 == 5 && Cube(9) % 13 == 1 && Cube(10) % 13 == 12 && Cube(11) % 13 == 5
    ensures Cube(12) % 13 == 12
  {}

  lemma SquareResidue(y: int)
    requires 0 <= y < 13
    ensures Square(y) % 13 in {0, 1, 3, 4, 9, 10, 12}
    ensures Square(y) % 13 == 3 ==> y == 4 || y == 9
    ensures Square(y) % 13 == 4 ==> y == 2 || y == 11
  {
    SquaresMod13();
  }

  lemma CubeResidue(x: int)
    requires 0 <= x < 13
    ensures Cube(x) % 13 in {0, 1, 5, 8, 12}
    ensures Cube(x) % 13 == 0 ==> x == 0
    ensures Cube(x) % 13 == 1 ==> x == 1 || x == 3 || x == 9
  {
    CubesMod13();
  }

  predicate Listed(a: Point)
    requires a.Affine?
  {
    if a.x == 0 then a.y == 4 || a.y == 9
    else (a.x == 1 || a.x == 3 || a.x == 9) && (a.y == 2 || a.y == 11)
  }

  // A square that is three more than a cube.
  lemma SquareAboveCube(x: int, y: int, c: int, s: int)
    requires (s - c - 3) % 13 == 0
    requires s % 13 in {0, 1, 3, 4, 9, 10, 12} && c % 13 in {0, 1, 5, 8, 12}
    requires (s % 13 == 3 ==> y == 4 || y == 9) && (s % 13 == 4 ==> y == 2 || y == 11)
    requires (c % 13 == 0 ==> x == 0) && (c % 13 == 1 ==> x == 1 || x == 3 || x == 9)
    ensures Listed(Affine(x, y))
  {
    assert s % 13 == (c % 13 + 3) % 13;
  }

  lemma AllPoints(a: Point)
    requires a.Affine? && OnCurve(13, a)
    ensures Listed(a)
  {
    SquareResidue(a.y);
    CubeResidue(a.x);
    assert Equation(a.x, a.y) == Square(a.y) - Cube(a.x) - 3;
    SquareAboveCube(a.x, a.y, Cube(a.x), Square(a.y));
  }

  // ---------------------------------------------------------------- three times a point

  function Negated(a: Point): Point
    requires a.Affine?
  {
    Affine(a.x, 13 - a.y)
  }

  lemma DoubleIsNegated(a: Point, l: int)
    requires a.Affine? && 0 <= a.x < 13 && 0 < a.y < 13
    requires Vanishes(13, 2 * a.y * l - 3 * a.x * a.x) && Vanishes(13, a.x - (l * l - a.x - a.x))
    ensures IsSum(13, a, a, Negated(a))
  {
    var r := Negated(a);
    assert l * (a.x - r.x) == 0;
    assert ThirdPoint(13, a, a, l, r);
    assert Slope(13, a, a, l);
  }

  lemma TripleVanishes(a: Point)
    requires a.Affine? && IsSum(13, a, a, Negated(a))
    ensures Multiple(13, a, 3, Infinity)
  {
    assert Multiple(13, a, 0, Infinity) && IsSum(13, Infinity, a, a);
    assert Multiple(13, a, 1, a);
    assert Multiple(13, a, 2, Negated(a));
    assert IsSum(13, Negated(a), a, Infinity);
  }

  // The tangent at (x, y) has slope l modulo 13, and meets the curve in one point only.
  lemma TripledBy(x: int, y: int, l: int, u: int, v: int)
    requires 0 <= x < 13 && 0 < y < 13
    requires 2 * y * l - 3 * x * x == 13 * u && x - (l * l - x - x) == 13 * v
    ensures Multiple(13, Affine(x, y), 3, Infinity)
  {
    MultipleVanishes(13, u);
    MultipleVanishes(13, v);
    DoubleIsNegated(Affine(x, y), l);
    TripleVanishes(Affine(x, y));
  }

  lemma ListedTripled(a: Point)
    requires a.Affine? && Listed(a)
    ensures Multiple(13, a, 3, Infinity)
  {
    match a.x {
      case 0 => if a.y == 4 { TripledBy(0, 4, 0, 0, 0); } else { TripledBy(0, 9, 0, 0, 0); }
      case 1 => if a.y == 2 { TripledBy(1, 2, 4, 1, -1); } else { TripledBy(1, 11, 9, 15, -6); }
      case 3 => if a.y == 2 { TripledBy(3, 2, 10, 1, -7); } else { TripledBy(3, 11, 3, 3, 0); }
      case _ => if a.y == 2 { TripledBy(9, 2, 12, -15, -9); } else { TripledBy(9, 11, 1, -17, 2); }
    }
  }

  lemma Tripled(a: Point)
    requires a.Affine? && OnCurve(13, a)
    ensures Multiple(13, a, 3, Infinity)
  {
    assert Listed(a) by { AllPoints(a); }
    assert Multiple(13, a, 3, Infinity) by { ListedTripled(a); }
  }

  // ---------------------------------------------------------------- encoding

  lemma {:induction false} ZerosAreZero(s: seq<byte>)
    requires forall i :: 0 <= i < |s| ==> s[i] == 0
    ensures FromLe(s) == 0
  {
    if s == [] {
    } else {
      ZerosAreZero(s[1..]);
    }
  }

  lemma SmallEncoding(x: byte) returns (s: seq<byte>)
    ensures |s| == COORDINATE_SIZE && FromLe(s) == x && s[0] == x
  {
    var zeros: seq<byte> := seq(COORDINATE_SIZE - 1, _ => 0);
    s := [x] + zeros;
    ZerosAreZero(zeros);
    assert s[1..] == zeros;
  }

  lemma TwoHalves(x: seq<byte>, y: seq<byte>)
    requires |x| == |y| == COORDINATE_SIZE && y[0] != 0
    ensures PointOfLe(x + y) == Affine(FromLe(x), FromLe(y))
  {
    assert (x + y)[..COORDINATE_SIZE] == x && (x + y)[COORDINATE_SIZE..] == y;
    assert (x + y)[COORDINATE_SIZE] == y[0];
  }

  lemma SmallPointEncoding(r: Point) returns (s: seq<byte>)
    requires r.Affine? ==> 0 <= r.x < 256 && 0 < r.y < 256
    ensures |s| == POINT_SIZE && PointOfLe(s) == r
  {
    if r.Infinity? {
      s := seq(POINT_SIZE, _ => 0);
    } else {
      var x := SmallEncoding(r.x);
      var y := SmallEncoding(r.y);
      TwoHalves(x, y);
      s := x + y;
    }
  }

  lemma SmallSum(a: seq<byte>, b: seq<byte>) returns (r: seq<byte>)
    requires |a| == |b| == POINT_SIZE && OnCurve(13, PointOfLe(a)) && OnCurve(13, PointOfLe(b))
    ensures IsSumLe(13, a, b, r)
  {
    var sum := SumExists(13, PointOfLe(a), PointOfLe(b));
    SumIsOnCurve(13, PointOfLe(a), PointOfLe(b), sum);
    if sum.Affine? { AllPoints(sum); }
    r := SmallPointEncoding(sum);
  }

  ghost function SumOver13(a: seq<byte>, b: seq<byte>): (r: seq<byte>)
    requires |a| == |b| == POINT_SIZE && OnCurve(13, PointOfLe(a)) && OnCurve(13, PointOfLe(b))
    ensures IsSumLe(13, a, b, r)
  {
    assert exists r :: IsSumLe(13, a, b, r) by {
      var r := SmallSum(a, b);
    }
    var r :| IsSumLe(13, a, b, r);
    r
  }

  /** A host that meets every assumption, the whole curve being the subgroup. */
  lemma SomeHostIsCorrect() returns (h: Host)
    ensures HostCorrect(h) && CofactorOne(h)
  {
    h := Host(13, 3, (a, b) requires ChordDomain(13, a, b) => SumOver13(a, b),
              a requires TangentDomain(13, a) => SumOver13(a, a), _ => true);
    assert Prime(13);
    forall a: Point | a.Affine? && OnCurve(13, a) ensures Multiple(13, a, 3, Infinity) { Tripled(a); }
  }
}
