/**
 The ADD branch of the bn256 precompile: pad the input, validate both points, convert them from
 Ethereum's big-endian to the runtime's little-endian layout, dispatch on the special cases of curve
 addition and convert back.

 The base field, the two curve operations and the subgroup check belong to libraries outside the
 repository; they are parameters (`Host`) with the contract those libraries give. Everything holds for
 the curve y^2 = x^3 + 3 over any prime field and any subgroup of odd order.
 */
module Bn254Add {
  import opened Bytes
  import opened Prelude
  import opened PrimeField
  import opened CurveGroup

  const COORDINATE_SIZE := 32
  const POINT_SIZE := 64
  const INPUT_SIZE := 128
  const ADD_GAS := 150
  const FUEL_DENOM_RATE := 20

  datatype ExitCode = OutOfFuel | PrecompileError

  // ---------------------------------------------------------------- points in the two layouts

  function SwapEndian(point: seq<byte>): (r: seq<byte>)
    requires |point| == POINT_SIZE
    ensures |r| == POINT_SIZE
  {
    Reversed(point[..COORDINATE_SIZE]) + Reversed(point[COORDINATE_SIZE..])
  }

  lemma SwapEndianTwice(point: seq<byte>)
    requires |point| == POINT_SIZE
    ensures SwapEndian(SwapEndian(point)) == point
  {
    var r := SwapEndian(point);
    assert r[..COORDINATE_SIZE] == Reversed(point[..COORDINATE_SIZE]);
    assert r[COORDINATE_SIZE..] == Reversed(point[COORDINATE_SIZE..]);
  }

  predicate IsIdentity(point: seq<byte>)
    requires |point| == POINT_SIZE
  {
    forall i :: 0 <= i < POINT_SIZE ==> point[i] == 0
  }

  predicate AreInverses(p: seq<byte>, q: seq<byte>)
    requires |p| == |q| == POINT_SIZE
  {
    p[..COORDINATE_SIZE] == q[..COORDINATE_SIZE] && p[COORDINATE_SIZE..] != q[COORDINATE_SIZE..]
  }

  // What 64 bytes mean: all zeros is the point at infinity.
  function PointOfLe(point: seq<byte>): Point
    requires |point| == POINT_SIZE
  {
    if IsIdentity(point) then Infinity
    else Affine(FromLe(point[..COORDINATE_SIZE]), FromLe(point[COORDINATE_SIZE..]))
  }

  function PointOfBe(point: seq<byte>): Point
    requires |point| == POINT_SIZE
  {
    if IsIdentity(point) then Infinity
    else Affine(FromBe(point[..COORDINATE_SIZE]), FromBe(point[COORDINATE_SIZE..]))
  }

  lemma SwapEndianOfZeros(point: seq<byte>)
    requires |point| == POINT_SIZE && IsIdentity(point)
    ensures IsIdentity(SwapEndian(point))
  {
    var x, y := Reversed(point[..COORDINATE_SIZE]), Reversed(point[COORDINATE_SIZE..]);
    assert forall i :: 0 <= i < COORDINATE_SIZE ==> x[i] == 0 && y[i] == 0;
  }

  lemma SwapEndianReads(point: seq<byte>)
    requires |point| == POINT_SIZE
    ensures PointOfLe(SwapEndian(point)) == PointOfBe(point)
  {
    var r := SwapEndian(point);
    var x, y := point[..COORDINATE_SIZE], point[COORDINATE_SIZE..];
    assert r[..COORDINATE_SIZE] == Reversed(x) && r[COORDINATE_SIZE..] == Reversed(y);
    ReversedBytes(x);
    ReversedBytes(y);
    SwapEndianTwice(point);
    if IsIdentity(point) { SwapEndianOfZeros(point); }
    if IsIdentity(r) { SwapEndianOfZeros(r); }
  }

  /** Changing the byte order does not change the point. */
  lemma SwapEndianKeepsThePoint(point: seq<byte>)
    requires |point| == POINT_SIZE
    ensures PointOfLe(SwapEndian(point)) == PointOfBe(point)
    ensures PointOfBe(SwapEndian(point)) == PointOfLe(point)
  {
    SwapEndianReads(point);
    SwapEndianReads(SwapEndian(point));
    SwapEndianTwice(point);
  }

  /** Equal bytes are equal points. */
  lemma PointOfLeIsInjective(p: seq<byte>, q: seq<byte>)
    requires |p| == |q| == POINT_SIZE
    ensures PointOfLe(p) == PointOfLe(q) <==> p == q
  {
    if PointOfLe(p) == PointOfLe(q) {
      if IsIdentity(p) {
        assert p == q;
      } else {
        LeIsInjective(p[..COORDINATE_SIZE], q[..COORDINATE_SIZE]);
        LeIsInjective(p[COORDINATE_SIZE..], q[COORDINATE_SIZE..]);
        assert p == p[..COORDINATE_SIZE] + p[COORDINATE_SIZE..];
        assert q == q[..COORDINATE_SIZE] + q[COORDINATE_SIZE..];
      }
    }
  }

  // ---------------------------------------------------------------- the libraries underneath

  datatype Host = Host(
    modulus: int,
    order: nat,
    add: (seq<byte>, seq<byte>) --> seq<byte>,
    double: seq<byte> --> seq<byte>,
    inSubgroup: Point -> bool)

  ghost predicate ChordDomain(m: int, a: seq<byte>, b: seq<byte>)
    requires m > 0
  {
    && |a| == |b| == POINT_SIZE
    && PointOfLe(a).Affine? && PointOfLe(b).Affine?
    && OnCurve(m, PointOfLe(a)) && OnCurve(m, PointOfLe(b))
    && PointOfLe(a).x != PointOfLe(b).x
  }

  ghost predicate TangentDomain(m: int, a: seq<byte>)
    requires m > 0
  {
    && |a| == POINT_SIZE
    && PointOfLe(a).Affine? && OnCurve(m, PointOfLe(a)) && PointOfLe(a).y != 0
  }

  ghost predicate IsSumLe(m: int, a: seq<byte>, b: seq<byte>, r: seq<byte>)
    requires m > 0 && |a| == |b| == POINT_SIZE
  {
    |r| == POINT_SIZE && IsSum(m, PointOfLe(a), PointOfLe(b), PointOfLe(r))
  }

  /**
   What the libraries promise. The chord formula is only promised for points with different x, the
   tangent formula only off the x axis; the subgroup is the points that an odd `order` annihilates.
   */
  ghost predicate HostCorrect(h: Host) {
    && Prime(h.modulus) && h.modulus > 3 && h.order % 2 == 1
    && (forall a, b :: ChordDomain(h.modulus, a, b) ==> h.add.requires(a, b) && IsSumLe(h.modulus, a, b, h.add(a, b)))
    && (forall a :: TangentDomain(h.modulus, a) ==> h.double.requires(a) && IsSumLe(h.modulus, a, a, h.double(a)))
    && (forall a: Point :: a.Affine? && OnCurve(h.modulus, a) ==>
          (h.inSubgroup(a) <==> Multiple(h.modulus, a, h.order, Infinity)))
  }

  /** A point of the curve, and of the subgroup unless it is infinity. */
  ghost predicate InGroup(h: Host, a: Point)
    requires h.modulus > 0
  {
    OnCurve(h.modulus, a) && (a.Affine? ==> Multiple(h.modulus, a, h.order, Infinity))
  }

  // The subgroup is the whole curve, as it is for bn254.
  ghost predicate CofactorOne(h: Host)
    requires h.modulus > 0
  {
    forall a: Point :: a.Affine? && OnCurve(h.modulus, a) ==> Multiple(h.modulus, a, h.order, Infinity)
  }

  // ---------------------------------------------------------------- in-place byte-order conversion

  method ReverseSlice(a: array<byte>, lo: nat, hi: nat)
    requires lo <= hi <= a.Length
    modifies a
    ensures a[..] == old(a[..])[..lo] + Reversed(old(a[..])[lo..hi]) + old(a[..])[hi..]
  {
    var i := 0;
    while i < (hi - lo) / 2
      invariant 0 <= i <= (hi - lo) / 2
      invariant forall k :: 0 <= k < lo || hi <= k < a.Length ==> a[k] == old(a[k])
      invariant forall k :: lo <= k < lo + i || hi - i <= k < hi ==> a[k] == old(a[lo + hi - 1 - k])
      invariant forall k :: lo + i <= k < hi - i ==> a[k] == old(a[k])
    {
      a[lo + i], a[hi - 1 - i] := a[hi - 1 - i], a[lo + i];
      i := i + 1;
    }
    MirroredSlice(old(a[..]), a[..], lo, hi);
  }

  lemma MirroredSlice(was: seq<byte>, now: seq<byte>, lo: nat, hi: nat)
    requires lo <= hi <= |was| == |now|
    requires forall k :: 0 <= k < lo || hi <= k < |was| ==> now[k] == was[k]
    requires forall k :: lo <= k < hi ==> now[k] == was[lo + hi - 1 - k]
    ensures now == was[..lo] + Reversed(was[lo..hi]) + was[hi..]
  {
    var mid := Reversed(was[lo..hi]);
    forall k | lo <= k < hi ensures now[k] == mid[k - lo] {
      assert mid[k - lo] == was[lo..hi][hi - 1 - k];
    }
  }

  lemma BothHalves(was: seq<byte>, half: seq<byte>, now: seq<byte>)
    requires |was| == |half| == POINT_SIZE
    requires half == was[..0] + Reversed(was[0..COORDINATE_SIZE]) + was[COORDINATE_SIZE..]
    requires now == half[..COORDINATE_SIZE] + Reversed(half[COORDINATE_SIZE..POINT_SIZE]) + half[POINT_SIZE..]
    ensures now == SwapEndian(was)
  {
    var x, y := was[..COORDINATE_SIZE], was[COORDINATE_SIZE..];
    assert was[0..COORDINATE_SIZE] == x;
    assert half[..COORDINATE_SIZE] == Reversed(x) && half[COORDINATE_SIZE..POINT_SIZE] == y;
  }

  method PointBeToLe(point: array<byte>)
    requires point.Length == POINT_SIZE
    modifies point
    ensures point[..] == SwapEndian(old(point[..]))
    ensures PointOfLe(point[..]) == PointOfBe(old(point[..]))
  {
    ReverseSlice(point, 0, COORDINATE_SIZE);
    ghost var half := point[..];
    ReverseSlice(point, COORDINATE_SIZE, POINT_SIZE);
    BothHalves(old(point[..]), half, point[..]);
    SwapEndianKeepsThePoint(old(point[..]));
  }

  method PointLeToBe(point: array<byte>)
    requires point.Length == POINT_SIZE
    modifies point
    ensures point[..] == SwapEndian(old(point[..]))
    ensures PointOfBe(point[..]) == PointOfLe(old(point[..]))
  {
    ReverseSlice(point, 0, COORDINATE_SIZE);
    ghost var half := point[..];
    ReverseSlice(point, COORDINATE_SIZE, POINT_SIZE);
    BothHalves(old(point[..]), half, point[..]);
    SwapEndianKeepsThePoint(old(point[..]));
  }

  // ---------------------------------------------------------------- validation

  // Canonical deserialisation: field elements above the modulus are refused.
  function DeserializeLe(m: int, s: seq<byte>): Option<int> {
    if FromLe(s) < m then Some(FromLe(s)) else None
  }

  // A reversed copy of a big-endian coordinate.
  method LittleEndian(bytes: seq<byte>) returns (le: seq<byte>)
    ensures le == Reversed(bytes) && FromLe(le) == FromBe(bytes)
  {
    var buffer := new byte[|bytes|](i requires 0 <= i < |bytes| => bytes[i]);
    assert buffer[..] == bytes;
    ReverseSlice(buffer, 0, |bytes|);
    le := buffer[..];
    assert bytes[0..|bytes|] == bytes && bytes[..0] == [] && bytes[|bytes|..] == [];
    ReversedBytes(bytes);
  }

  /** A point is accepted exactly when it is (0, 0) or reduced coordinates on the curve and in the subgroup. */
  method IsValidPoint(h: Host, point: seq<byte>) returns (valid: bool)
    requires |point| == POINT_SIZE && HostCorrect(h)
    ensures valid <==> InGroup(h, PointOfBe(point))
    ensures CofactorOne(h) ==> (valid <==> OnCurve(h.modulus, PointOfBe(point)))
  {
    if IsIdentity(point) {
      return true;
    }
    var xBytes := LittleEndian(point[..COORDINATE_SIZE]);
    var yBytes := LittleEndian(point[COORDINATE_SIZE..]);
    var x := DeserializeLe(h.modulus, xBytes);
    if x.None? {
      return false;
    }
    var y := DeserializeLe(h.modulus, yBytes);
    if y.None? {
      return false;
    }
    var candidate := Affine(x.value, y.value);
    valid := OnCurve(h.modulus, candidate) && h.inSubgroup(candidate);
  }

  // ---------------------------------------------------------------- the precompile

  function Padded(input: seq<byte>): (s: seq<byte>)
    ensures |s| == INPUT_SIZE
  {
    seq(INPUT_SIZE, i requires 0 <= i < INPUT_SIZE => if i < |input| then input[i] else 0)
  }

  /** Missing bytes count as zeros, surplus bytes do not count, and 128 bytes stand for themselves. */
  lemma PaddingLaws(input: seq<byte>, zeros: seq<byte>, surplus: seq<byte>)
    requires forall i :: 0 <= i < |zeros| ==> zeros[i] == 0
    ensures Padded(input + zeros) == Padded(input)
    ensures |input| >= 128 ==> Padded(input + surplus) == Padded(input)
    ensures |input| == 128 ==> Padded(input) == input
  {
    assert forall i :: 0 <= i < 128 ==> Padded(input + zeros)[i] == Padded(input)[i];
  }

  function FirstPoint(input: seq<byte>): Point {
    PointOfBe(Padded(input)[..POINT_SIZE])
  }

  function SecondPoint(input: seq<byte>): Point {
    PointOfBe(Padded(input)[POINT_SIZE..])
  }

  method Pad(input: seq<byte>) returns (padded: array<byte>)
    ensures fresh(padded) && padded[..] == Padded(input)
  {
    padded := new byte[INPUT_SIZE](_ => 0);
    var copyLen := if |input| < INPUT_SIZE then |input| else INPUT_SIZE;
    for i := 0 to copyLen
      invariant forall k :: 0 <= k < INPUT_SIZE ==> padded[k] == if k < i then input[k] else 0
    {
      padded[i] := input[i];
    }
  }

  /** The five-way dispatch meets the domain of each curve operation and yields the group sum. */
  method Dispatch(h: Host, p: seq<byte>, q: seq<byte>) returns (r: seq<byte>)
    requires HostCorrect(h)
    requires |p| == |q| == POINT_SIZE
    requires InGroup(h, PointOfLe(p)) && InGroup(h, PointOfLe(q))
    ensures IsSumLe(h.modulus, p, q, r)
  {
    if IsIdentity(p) {
      r := q;
    } else if IsIdentity(q) {
      r := p;
    } else if p == q {
      OddOrderIsOffTheAxis(h.modulus, PointOfLe(p), h.order);
      r := h.double(p);
    } else if AreInverses(p, q) {
      r := seq(POINT_SIZE, _ => 0);
      SameX(h.modulus, PointOfLe(p), PointOfLe(q));
      PointOfLeIsInjective(p, q);
    } else {
      DifferentX(p, q);
      r := h.add(p, q);
    }
  }

  lemma DifferentX(p: seq<byte>, q: seq<byte>)
    requires |p| == |q| == POINT_SIZE && p != q && !AreInverses(p, q)
    requires PointOfLe(p).Affine? && PointOfLe(q).Affine?
    ensures PointOfLe(p).x != PointOfLe(q).x
  {
    assert p == p[..COORDINATE_SIZE] + p[COORDINATE_SIZE..];
    assert q == q[..COORDINATE_SIZE] + q[COORDINATE_SIZE..];
    if PointOfLe(p).x == PointOfLe(q).x {
      LeIsInjective(p[..COORDINATE_SIZE], q[..COORDINATE_SIZE]);
    }
  }

  /**
   EIP-196 addition, for every input, at 150 gas, which is 3000 fuel: it fails exactly when a zero-padded
   point is neither (0, 0) nor a point of the group, and otherwise returns the big-endian encoding of the
   sum, a point of the curve.
   Where the whole curve is the group, as for bn254, it fails exactly when a point is off the curve.
   */
  method AddEntry(h: Host, fuel: nat, input: seq<byte>) returns (r: Result<seq<byte>, ExitCode>, left: nat)
    requires HostCorrect(h)
    ensures fuel < 3000 ==> r == Err(OutOfFuel) && left == fuel
    ensures fuel >= 3000 ==> left == fuel - 3000
    ensures fuel >= 3000 ==>
      if InGroup(h, FirstPoint(input)) && InGroup(h, SecondPoint(input))
      then
        && r.Ok? && |r.value| == POINT_SIZE
        && IsSum(h.modulus, FirstPoint(input), SecondPoint(input), PointOfBe(r.value))
        && OnCurve(h.modulus, PointOfBe(r.value))
      else r == Err(PrecompileError)
    ensures fuel >= 3000 && CofactorOne(h) ==>
      (r.Ok? <==> OnCurve(h.modulus, FirstPoint(input)) && OnCurve(h.modulus, SecondPoint(input)))
  {
    if ADD_GAS * FUEL_DENOM_RATE > fuel {
      return Err(OutOfFuel), fuel;
    }
    left := fuel - ADD_GAS * FUEL_DENOM_RATE;

    var paddedInput := Pad(input);
    var pBe := paddedInput[..POINT_SIZE];
    var qBe := paddedInput[POINT_SIZE..];
    assert pBe == Padded(input)[..POINT_SIZE] && qBe == Padded(input)[POINT_SIZE..];

    var pValid := IsValidPoint(h, pBe);
    var qValid := IsValidPoint(h, qBe);
    if !pValid || !qValid {
      return Err(PrecompileError), left;
    }

    var p := new byte[POINT_SIZE](i requires 0 <= i < POINT_SIZE => pBe[i]);
    var q := new byte[POINT_SIZE](i requires 0 <= i < POINT_SIZE => qBe[i]);
    assert p[..] == pBe && q[..] == qBe;
    PointBeToLe(p);
    PointBeToLe(q);

    var sum := Dispatch(h, p[..], q[..]);
    var result := new byte[POINT_SIZE](i requires 0 <= i < POINT_SIZE => sum[i]);
    assert result[..] == sum;
    PointLeToBe(result);
    SumIsOnCurve(h.modulus, PointOfBe(pBe), PointOfBe(qBe), PointOfLe(sum));
    r := Ok(result[..]);
  }

  /** Swapping the two points of an input never changes the sum that must come back. */
  lemma OperandOrderIsIrrelevant(m: int, p: Point, q: Point, r: Point, s: Point)
    requires Prime(m) && m > 3 && OnCurve(m, p) && OnCurve(m, q)
    requires IsSum(m, p, q, r) && IsSum(m, q, p, s)
    ensures r == s
  {
    SumIsCommutative(m, p, q, r);
    SumIsUnique(m, q, p, r, s);
  }

  /** The returned bytes are determined: two encodings of one point are the same 64 bytes. */
  lemma OutputIsDetermined(m: int, p: Point, q: Point, r: seq<byte>, s: seq<byte>)
    requires Prime(m) && m > 3 && OnCurve(m, p) && OnCurve(m, q)
    requires |r| == |s| == POINT_SIZE
    requires IsSum(m, p, q, PointOfBe(r)) && IsSum(m, p, q, PointOfBe(s))
    ensures r == s
  {
    SumIsUnique(m, p, q, PointOfBe(r), PointOfBe(s));
    SwapEndianKeepsThePoint(r);
    SwapEndianKeepsThePoint(s);
    PointOfLeIsInjective(SwapEndian(r), SwapEndian(s));
    SwapEndianTwice(r);
    SwapEndianTwice(s);
  }
}
