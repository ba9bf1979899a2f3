/** Bezier curves turned into path points, over exact numbers. */
module BezierPaths {

  datatype Point = Point(x: real, y: real)

  function Mid(p: Point, q: Point): Point { Point((p.x + q.x) * 0.5, (p.y + q.y) * 0.5) }

  // ------------------------------------------------------------ the curves

  function CubicAt(a: real, b: real, c: real, d: real, t: real): real {
    var u := 1.0 - t;
    u * u * u * a + 3.0 * u * u * t * b + 3.0 * u * t * t * c + t * t * t * d
  }

  function QuadraticAt(a: real, b: real, c: real, t: real): real {
    var u := 1.0 - t;
    u * u * a + 2.0 * u * t * b + t * t * c
  }

  datatype Curve =
    | Cubic(p1: Point, p2: Point, p3: Point, p4: Point)
    | Quadratic(q1: Point, q2: Point, q3: Point)

  function At(c: Curve, t: real): Point {
    match c
    case Cubic(p1, p2, p3, p4) => Point(CubicAt(p1.x, p2.x, p3.x, p4.x, t), CubicAt(p1.y, p2.y, p3.y, p4.y, t))
    case Quadratic(q1, q2, q3) => Point(QuadraticAt(q1.x, q2.x, q3.x, t), QuadraticAt(q1.y, q2.y, q3.y, t))
  }

  function End(c: Curve): Point {
    match c
    case Cubic(_, _, _, p4) => p4
    case Quadratic(_, _, q3) => q3
  }

  lemma AtEnd(c: Curve)
    ensures At(c, 1.0) == End(c)
  {
  }

  /** The two halves of a curve have the midpoints of its control points for control points. */
  function LeftHalf(c: Curve): Curve {
    match c
    case Cubic(p1, p2, p3, p4) =>
      var p12, p23, p34 := Mid(p1, p2), Mid(p2, p3), Mid(p3, p4);
      Cubic(p1, p12, Mid(p12, p23), Mid(Mid(p12, p23), Mid(p23, p34)))
    case Quadratic(q1, q2, q3) => Quadratic(q1, Mid(q1, q2), Mid(Mid(q1, q2), Mid(q2, q3)))
  }

  function RightHalf(c: Curve): Curve {
    match c
    case Cubic(p1, p2, p3, p4) =>
      var p12, p23, p34 := Mid(p1, p2), Mid(p2, p3), Mid(p3, p4);
      Cubic(Mid(Mid(p12, p23), Mid(p23, p34)), Mid(p23, p34), p34, p4)
    case Quadratic(q1, q2, q3) => Quadratic(Mid(Mid(q1, q2), Mid(q2, q3)), Mid(q2, q3), q3)
  }

  function Half(a: real, b: real): real { (a + b) * 0.5 }

  lemma CubicLeft(a: real, b: real, c: real, d: real, t: real)
    ensures var ab, bc, cd := Half(a, b), Half(b, c), Half(c, d);
            CubicAt(a, ab, Half(ab, bc), Half(Half(ab, bc), Half(bc, cd)), t) == CubicAt(a, b, c, d, t / 2.0)
  {
  }

  lemma CubicReversed(a: real, b: real, c: real, d: real, t: real)
    ensures CubicAt(a, b, c, d, t) == CubicAt(d, c, b, a, 1.0 - t)
  {
  }

  lemma CubicRight(a: real, b: real, c: real, d: real, t: real)
    ensures var ab, bc, cd := Half(a, b), Half(b, c), Half(c, d);
            CubicAt(Half(Half(ab, bc), Half(bc, cd)), Half(bc, cd), cd, d, t) == CubicAt(a, b, c, d, (1.0 + t) / 2.0)
  {
    hide CubicAt;
    var ab, bc, cd := Half(a, b), Half(b, c), Half(c, d);
    CubicReversed(Half(Half(ab, bc), Half(bc, cd)), Half(bc, cd), cd, d, t);
    CubicLeft(d, c, b, a, 1.0 - t);
    CubicReversed(a, b, c, d, (1.0 + t) / 2.0);
    assert 1.0 - (1.0 + t) / 2.0 == (1.0 - t) / 2.0;
  }

  lemma QuadraticLeft(a: real, b: real, c: real, t: real)
    ensures QuadraticAt(a, Half(a, b), Half(Half(a, b), Half(b, c)), t) == QuadraticAt(a, b, c, t / 2.0)
  {
  }

  lemma QuadraticReversed(a: real, b: real, c: real, t: real)
    ensures QuadraticAt(a, b, c, t) == QuadraticAt(c, b, a, 1.0 - t)
  {
  }

  lemma QuadraticRight(a: real, b: real, c: real, t: real)
    ensures QuadraticAt(Half(Half(a, b), Half(b, c)), Half(b, c), c, t) == QuadraticAt(a, b, c, (1.0 + t) / 2.0)
  {
    hide QuadraticAt;
    QuadraticReversed(Half(Half(a, b), Half(b, c)), Half(b, c), c, t);
    QuadraticLeft(c, b, a, 1.0 - t);
    QuadraticReversed(a, b, c, (1.0 + t) / 2.0);
    assert 1.0 - (1.0 + t) / 2.0 == (1.0 - t) / 2.0;
  }

  /** De Casteljau: the halves run over the same points as the curve, at half the speed. */
  lemma HalvesOnCurve(c: Curve, t: real)
    ensures At(LeftHalf(c), t) == At(c, t / 2.0)
    ensures At(RightHalf(c), t) == At(c, (1.0 + t) / 2.0)
  {
    hide CubicAt, QuadraticAt;
    match c
    case Cubic(p1, p2, p3, p4) =>
      CubicLeft(p1.x, p2.x, p3.x, p4.x, t);
      CubicLeft(p1.y, p2.y, p3.y, p4.y, t);
      CubicRight(p1.x, p2.x, p3.x, p4.x, t);
      CubicRight(p1.y, p2.y, p3.y, p4.y, t);
    case Quadratic(q1, q2, q3) =>
      QuadraticLeft(q1.x, q2.x, q3.x, t);
      QuadraticLeft(q1.y, q2.y, q3.y, t);
      QuadraticRight(q1.x, q2.x, q3.x, t);
      QuadraticRight(q1.y, q2.y, q3.y, t);
  }

  // ------------------------------------------------------- dyadic parameters

  const MAX_LEVEL: nat := 10

  function Pow2(n: nat): (p: nat)
    ensures p > 0
  {
    if n == 0 then 1 else 2 * Pow2(n - 1)
  }

  /** Ascending numbers from 1 to `n`. */
  ghost predicate Ascending(ks: seq<nat>, n: nat) {
    && (forall i :: 0 <= i < |ks| ==> 0 < ks[i] <= n)
    && forall i, j :: 0 <= i < j < |ks| ==> ks[i] < ks[j]
  }

  lemma {:induction false} AscendingBound(ks: seq<nat>, n: nat)
    requires Ascending(ks, n)
    ensures |ks| <= n
    decreases n
  {
    if ks != [] {
      AscendingBound(ks[..|ks| - 1], ks[|ks| - 1] - 1);
    }
  }

  function Shifted(ks: seq<nat>, offset: nat): seq<nat> { seq(|ks|, i requires 0 <= i < |ks| => ks[i] + offset) }

  /** The curve's points at the parameters k / n. */
  function PointsAt(c: Curve, ks: seq<nat>, n: nat): seq<Point>
    requires n > 0
  {
    seq(|ks|, i requires 0 <= i < |ks| => At(c, ks[i] as real / n as real))
  }

  lemma QuotientIs(a: real, b: real, q: real)
    requires b != 0.0 && q * b == a
    ensures a / b == q
  {
  }

  lemma HalvedParameter(k: nat, n: nat)
    requires n > 0
    ensures (k as real / n as real) / 2.0 == k as real / (2 * n) as real
    ensures (1.0 + k as real / n as real) / 2.0 == (k + n) as real / (2 * n) as real
  {
    var x, r, t := k as real, n as real, k as real / n as real;
    QuotientTimes(x, r);
    Doubled(t, r, x);
    QuotientIs(x, 2.0 * r, t / 2.0);
    QuotientIs(x + r, 2.0 * r, (1.0 + t) / 2.0);
  }

  lemma QuotientTimes(a: real, b: real)
    requires b != 0.0
    ensures a / b * b == a
  {
  }

  lemma Doubled(t: real, r: real, x: real)
    requires t * r == x
    ensures t / 2.0 * (2.0 * r) == x && (1.0 + t) / 2.0 * (2.0 * r) == x + r
  {
  }

  lemma JoinedPoints(c: Curve, left: seq<nat>, right: seq<nat>, n: nat)
    requires n > 0
    ensures PointsAt(c, left + Shifted(right, n), 2 * n) ==
        PointsAt(LeftHalf(c), left, n) + PointsAt(RightHalf(c), right, n)
  {
    hide At, LeftHalf, RightHalf;
    var ks := left + Shifted(right, n);
    forall i | 0 <= i < |ks|
      ensures At(c, ks[i] as real / (2 * n) as real) ==
          (PointsAt(LeftHalf(c), left, n) + PointsAt(RightHalf(c), right, n))[i]
    {
      if i < |left| {
        HalvedParameter(left[i], n);
        HalvesOnCurve(c, left[i] as real / n as real);
      } else {
        HalvedParameter(right[i - |left|], n);
        HalvesOnCurve(c, right[i - |left|] as real / n as real);
      }
    }
  }

  /** Pieces that end at `ks` or at `dropped` cover 1 to `n`, and the dropped ones have length 1. */
  ghost predicate Tiling(ks: seq<nat>, dropped: seq<nat>, n: nat) {
    && Ascending(ks, n) && Ascending(dropped, n)
    && (n in ks <==> n !in dropped)
    && forall d :: d in dropped ==> d !in ks && (d == 1 || d - 1 in ks || d - 1 in dropped)
  }

  lemma JoinedTiling(left: seq<nat>, dropL: seq<nat>, right: seq<nat>, dropR: seq<nat>, n: nat)
    requires Tiling(left, dropL, n) && Tiling(right, dropR, n)
    ensures Tiling(left + Shifted(right, n), dropL + Shifted(dropR, n), 2 * n)
  {
    hide Ascending, Shifted;
    JoinedAscending(left, right, n);
    JoinedAscending(dropL, dropR, n);
    InShifted(right, n);
    InShifted(dropR, n);
    InAscending(left, n);
    InAscending(dropL, n);
    InAscending(right, n);
    InAscending(dropR, n);
  }

  lemma JoinedAscending(left: seq<nat>, right: seq<nat>, n: nat)
    requires Ascending(left, n) && Ascending(right, n)
    ensures Ascending(left + Shifted(right, n), 2 * n)
  {
  }

  lemma InAscending(ks: seq<nat>, n: nat)
    requires Ascending(ks, n)
    ensures forall k :: k in ks ==> 0 < k <= n
  {
  }

  lemma InShifted(ks: seq<nat>, n: nat)
    ensures forall k :: k in Shifted(ks, n) <==> k >= n && k - n in ks
  {
    forall k | k >= n && k - n in ks ensures k in Shifted(ks, n) {
      var i :| 0 <= i < |ks| && ks[i] == k - n;
      assert Shifted(ks, n)[i] == k;
    }
  }

  // -------------------------------------------------------------- subdivision

  function Abs(a: real): real { if a >= 0.0 then a else -a }

  function Start(c: Curve): Point {
    match c
    case Cubic(p1, _, _, _) => p1
    case Quadratic(q1, _, _) => q1
  }

  /** The inner control points. */
  predicate Controls(c: Curve, p: Point) {
    match c
    case Cubic(_, p2, p3, _) => p == p2 || p == p3
    case Quadratic(_, q2, _) => p == q2
  }

  function Square(a: real): real { a * a }

  function Cubed(a: real): real { a * a * a }

  function Times(a: real, b: real): real { a * b }

  /** How far a point is from the chord of a curve, times the length of the chord. */
  function Off(c: Curve, p: Point): real {
    var dx, dy := End(c).x - Start(c).x, End(c).y - Start(c).y;
    (p.x - End(c).x) * dy - (p.y - End(c).y) * dx
  }

  function ChordSquared(c: Curve): real {
    Square(End(c).x - Start(c).x) + Square(End(c).y - Start(c).y)
  }

  /** The control points are close enough to the chord for its length. */
  predicate Flat(c: Curve, tol: real) {
    match c
    case Cubic(_, p2, p3, _) => Square(Abs(Off(c, p2)) + Abs(Off(c, p3))) < tol * ChordSquared(c)
    case Quadratic(_, q2, _) => 4.0 * Square(Off(c, q2)) < tol * ChordSquared(c)
  }

  // ----------------------------------------------------------- what is flat

  /** How much of an inner control point there is in a point of the curve. */
  function CubicWeight(t: real): real { 3.0 * (1.0 - t) * (1.0 - t) * t }

  function QuadraticWeight(t: real): real { 2.0 * (1.0 - t) * t }

  lemma Product(a: real, b: real)
    requires a >= 0.0 && b >= 0.0
    ensures a * b >= 0.0
  {
  }

  lemma Positive(a: real, b: real)
    requires a > 0.0 && b > 0.0
    ensures a * b > 0.0
  {
  }

  lemma PositiveSquare(a: real)
    requires a > 0.0
    ensures Square(a) > 0.0
  {
    var b := a / 2.0;
    Positive(a, b);
    assert Square(a) == 2.0 * (a * b);
  }

  lemma SquarePositive(a: real)
    requires a != 0.0
    ensures Square(a) > 0.0
  {
    if a > 0.0 {
      PositiveSquare(a);
    } else {
      PositiveSquare(-a);
      assert Square(-a) == Square(a);
    }
  }

  lemma SquareNonNegative(a: real)
    ensures Square(a) >= 0.0
  {
  }

  lemma ZeroSquare()
    ensures Square(0.0) == 0.0
  {
  }

  lemma SquareAbs(a: real)
    ensures Square(Abs(a)) == Square(a)
  {
  }

  lemma SquareGrows(a: real, b: real)
    requires Abs(a) <= b
    ensures Square(a) <= Square(b)
  {
    Product(b - a, b + a);
    assert (b - a) * (b + a) == b * b - a * a;
  }

  lemma SquareTimes(k: real, a: real)
    ensures Square(k * a) == k * k * Square(a)
  {
  }

  lemma LargerSquare(a: real, b: real)
    ensures Square(Abs(a) + Abs(b)) <= 4.0 * Square(if Abs(a) >= Abs(b) then a else b)
  {
    var c := if Abs(a) >= Abs(b) then a else b;
    SquareGrows(Abs(a) + Abs(b), 2.0 * Abs(c));
    SquareTimes(2.0, Abs(c));
    SquareAbs(c);
  }

  lemma CubicWeighed(a: real, b: real, c: real, d: real, t: real)
    ensures CubicAt(a, b, c, d, t) - d ==
            Cubed(1.0 - t) * (a - d) + CubicWeight(t) * (b - d) + CubicWeight(1.0 - t) * (c - d)
  {
  }

  lemma QuadraticWeighed(a: real, b: real, c: real, t: real)
    ensures QuadraticAt(a, b, c, t) - c == Square(1.0 - t) * (a - c) + QuadraticWeight(t) * (b - c)
  {
  }

  /** Weights stay what they are under a linear map. */
  lemma Weights(u: real, v: real, w: real, a: real, b: real, c: real, k: real, a': real, b': real, c': real, k': real)
    ensures (u * a + v * b + w * c) * k - (u * a' + v * b' + w * c') * k' ==
            u * (a * k - a' * k') + v * (b * k - b' * k') + w * (c * k - c' * k')
  {
  }

  lemma CubicWeightMost(t: real)
    requires 0.0 <= t <= 1.0
    ensures 0.0 <= CubicWeight(t) <= 4.0 / 9.0
  {
    var u, r := 1.0 - t, t - 1.0 / 3.0;
    Product(u * u, t);
    Product(r * r, 4.0 / 3.0 - t);
    assert u * u * t == 4.0 / 27.0 - r * r * (4.0 / 3.0 - t);
    assert CubicWeight(t) == 3.0 * (u * u * t);
  }

  lemma QuadraticWeightMost(t: real)
    requires 0.0 <= t <= 1.0
    ensures 0.0 <= QuadraticWeight(t) <= 0.5
  {
    Product(1.0 - t, t);
    SquareNonNegative(t - 0.5);
    assert QuadraticWeight(t) == 0.5 - 2.0 * Square(t - 0.5) == 2.0 * ((1.0 - t) * t);
  }

  lemma UpToNinths(a: real, w: real) returns (p: real)
    requires 0.0 <= w <= 4.0 / 9.0
    ensures p == Times(w, a) && Abs(p) <= 4.0 / 9.0 * Abs(a)
  {
    p := w * a;
    Product(w, Abs(a));
    Product(4.0 / 9.0 - w, Abs(a));
    assert w * -a == -(w * a);
  }

  lemma UpToHalf(a: real, w: real) returns (p: real)
    requires 0.0 <= w <= 0.5
    ensures p == Times(w, a) && Abs(p) <= 0.5 * Abs(a)
  {
    p := w * a;
    Product(w, Abs(a));
    Product(0.5 - w, Abs(a));
    assert w * -a == -(w * a);
  }

  lemma StartOff(c: Curve)
    ensures Off(c, Start(c)) == 0.0
  {
  }

  lemma CubicOff(c: Curve, t: real)
    requires c.Cubic?
    ensures Off(c, At(c, t)) ==
            Times(CubicWeight(t), Off(c, c.p2)) + Times(CubicWeight(1.0 - t), Off(c, c.p3))
  {
    hide CubicAt, CubicWeight, Cubed;
    var p1, p2, p3, p4 := c.p1, c.p2, c.p3, c.p4;
    CubicWeighed(p1.x, p2.x, p3.x, p4.x, t);
    CubicWeighed(p1.y, p2.y, p3.y, p4.y, t);
    Weights(Cubed(1.0 - t), CubicWeight(t), CubicWeight(1.0 - t), p1.x - p4.x, p2.x - p4.x, p3.x - p4.x, p4.y - p1.y,
        p1.y - p4.y, p2.y - p4.y, p3.y - p4.y, p4.x - p1.x);
    StartOff(c);
  }

  lemma QuadraticOff(c: Curve, t: real)
    requires c.Quadratic?
    ensures Off(c, At(c, t)) == Times(QuadraticWeight(t), Off(c, c.q2))
  {
    hide QuadraticAt, QuadraticWeight, Square;
    var q1, q2, q3 := c.q1, c.q2, c.q3;
    QuadraticWeighed(q1.x, q2.x, q3.x, t);
    QuadraticWeighed(q1.y, q2.y, q3.y, t);
    Weights(Square(1.0 - t), QuadraticWeight(t), 0.0, q1.x - q3.x, q2.x - q3.x, 0.0, q3.y - q1.y,
        q1.y - q3.y, q2.y - q3.y, 0.0, q3.x - q1.x);
    StartOff(c);
  }

  lemma CubicParts(c: Curve, t: real) returns (a: real, b: real)
    requires c.Cubic? && 0.0 <= t <= 1.0
    ensures Off(c, At(c, t)) == a + b
    ensures Abs(a) <= 4.0 / 9.0 * Abs(Off(c, c.p2)) && Abs(b) <= 4.0 / 9.0 * Abs(Off(c, c.p3))
  {
    CubicOff(c, t);
    CubicWeightMost(t);
    CubicWeightMost(1.0 - t);
    hide Off, At, CubicWeight, Abs, Times;
    a := UpToNinths(Off(c, c.p2), CubicWeight(t));
    b := UpToNinths(Off(c, c.p3), CubicWeight(1.0 - t));
  }

  lemma TwoParts(a: real, b: real, c: real, d: real)
    requires Abs(a) <= 4.0 / 9.0 * Abs(c) && Abs(b) <= 4.0 / 9.0 * Abs(d)
    ensures 81.0 / 16.0 * Square(a + b) <= Square(Abs(c) + Abs(d))
  {
    hide Square;
    SquareGrows(9.0 / 4.0 * (a + b), Abs(c) + Abs(d));
    SquareTimes(9.0 / 4.0, a + b);
  }

  lemma CubicClose(c: Curve, t: real)
    requires c.Cubic? && 0.0 <= t <= 1.0
    ensures 81.0 / 16.0 * Square(Off(c, At(c, t))) <= Square(Abs(Off(c, c.p2)) + Abs(Off(c, c.p3)))
  {
    var a, b := CubicParts(c, t);
    hide Off, At, Square, Abs;
    TwoParts(a, b, Off(c, c.p2), Off(c, c.p3));
  }

  lemma QuadraticPart(c: Curve, t: real) returns (a: real)
    requires c.Quadratic? && 0.0 <= t <= 1.0
    ensures Off(c, At(c, t)) == a && Abs(a) <= 0.5 * Abs(Off(c, c.q2))
  {
    QuadraticOff(c, t);
    QuadraticWeightMost(t);
    hide Off, At, QuadraticWeight, Abs, Times;
    a := UpToHalf(Off(c, c.q2), QuadraticWeight(t));
  }

  lemma OnePart(a: real, b: real)
    requires Abs(a) <= 0.5 * Abs(b)
    ensures 16.0 * Square(a) <= 4.0 * Square(b)
  {
    hide Square;
    SquareGrows(2.0 * a, Abs(b));
    SquareTimes(2.0, a);
    SquareAbs(b);
  }

  lemma QuadraticClose(c: Curve, t: real)
    requires c.Quadratic? && 0.0 <= t <= 1.0
    ensures 16.0 * Square(Off(c, At(c, t))) <= 4.0 * Square(Off(c, c.q2))
  {
    var a := QuadraticPart(c, t);
    hide Off, At, Square, Abs;
    OnePart(a, Off(c, c.q2));
  }

  /** Every point of a piece that counts as flat is close to the chord: its distance, squared, is less
      than 16/81 of the tolerance on a cubic curve, and than 1/16 on a quadratic one. */
  lemma FlatClose(c: Curve, tol: real, t: real)
    requires Flat(c, tol) && 0.0 <= t <= 1.0
    ensures (if c.Cubic? then 81.0 / 16.0 else 16.0) * Square(Off(c, At(c, t))) < tol * ChordSquared(c)
  {
    hide Off, At, Square, ChordSquared, Abs;
    if c.Cubic? {
      CubicClose(c, t);
    } else {
      QuadraticClose(c, t);
    }
  }

  /** And what does not count as flat has an inner control point whose distance, squared, is a quarter
      of the tolerance or more. */
  lemma CurvedFar(c: Curve, tol: real)
    requires !Flat(c, tol)
    ensures exists p :: Controls(c, p) && 4.0 * Square(Off(c, p)) >= tol * ChordSquared(c)
  {
    hide Off, Square, ChordSquared, Abs;
    if c.Cubic? {
      var p := if Abs(Off(c, c.p2)) >= Abs(Off(c, c.p3)) then c.p2 else c.p3;
      LargerSquare(Off(c, c.p2), Off(c, c.p3));
      assert Controls(c, p);
    } else {
      assert Controls(c, c.q2);
    }
  }

  /** So a piece with distinct ends and its control points on the chord's line is flat. */
  lemma StraightFlat(c: Curve, tol: real)
    requires tol > 0.0 && Start(c) != End(c) && forall p :: Controls(c, p) ==> Off(c, p) == 0.0
    ensures Flat(c, tol)
  {
    hide Square, Off;
    var dx, dy := End(c).x - Start(c).x, End(c).y - Start(c).y;
    SquareNonNegative(dx);
    SquareNonNegative(dy);
    if dx != 0.0 {
      SquarePositive(dx);
    } else {
      SquarePositive(dy);
    }
    Positive(tol, ChordSquared(c));
    if !Flat(c, tol) {
      CurvedFar(c, tol);
      ZeroSquare();
    }
  }

  // ------------------------------------------------------------ the pieces

  /** The ends, in units of the smallest pieces, of the pieces a curve falls into: flat ones, and
      ones that are still curved at the last level. */
  datatype Pieces = Pieces(flat: seq<nat>, curved: seq<nat>)

  function Subdivision(c: Curve, tol: real, level: nat): Pieces
    requires level <= MAX_LEVEL
    decreases MAX_LEVEL - level
  {
    var n := Pow2(MAX_LEVEL - level);
    if Flat(c, tol) then Pieces([n], [])
    else if level == MAX_LEVEL then Pieces([], [n])
    else
      var left, right := Subdivision(LeftHalf(c), tol, level + 1), Subdivision(RightHalf(c), tol, level + 1);
      Pieces(left.flat + Shifted(right.flat, n / 2), left.curved + Shifted(right.curved, n / 2))
  }

  /** The three cases. */
  lemma SubdivisionNow(c: Curve, tol: real, level: nat)
    requires level <= MAX_LEVEL
    ensures Flat(c, tol) ==> Subdivision(c, tol, level) == Pieces([Pow2(MAX_LEVEL - level)], [])
    ensures !Flat(c, tol) && level == MAX_LEVEL ==> Subdivision(c, tol, level) == Pieces([], [1])
    ensures !Flat(c, tol) && level < MAX_LEVEL ==>
              var left, right := Subdivision(LeftHalf(c), tol, level + 1), Subdivision(RightHalf(c), tol, level + 1);
              var n := Pow2(MAX_LEVEL - level - 1);
              && Subdivision(c, tol, level) ==
                  Pieces(left.flat + Shifted(right.flat, n), left.curved + Shifted(right.curved, n))
              && Pow2(MAX_LEVEL - level) == 2 * n
  {
    hide Flat, LeftHalf, RightHalf, Shifted;
    if level < MAX_LEVEL {
      assert Pow2(MAX_LEVEL - level) == 2 * Pow2(MAX_LEVEL - level - 1);
    }
  }

  /** The flat pieces come in ascending order and do not overlap; together with the curved ones,
      which are as small as pieces get, they cover the curve. */
  lemma {:induction false} SubdivisionTiles(c: Curve, tol: real, level: nat)
    requires level <= MAX_LEVEL
    ensures var s := Subdivision(c, tol, level); Tiling(s.flat, s.curved, Pow2(MAX_LEVEL - level))
    decreases MAX_LEVEL - level
  {
    hide Flat, LeftHalf, RightHalf, Tiling, Shifted, Subdivision;
    LeafTiles(Pow2(MAX_LEVEL - level));
    SubdivisionNow(c, tol, level);
    if !Flat(c, tol) && level < MAX_LEVEL {
      var n := Pow2(MAX_LEVEL - level - 1);
      SubdivisionTiles(LeftHalf(c), tol, level + 1);
      SubdivisionTiles(RightHalf(c), tol, level + 1);
      var left, right := Subdivision(LeftHalf(c), tol, level + 1), Subdivision(RightHalf(c), tol, level + 1);
      JoinedTiling(left.flat, left.curved, right.flat, right.curved, n);
    }
  }

  lemma LeafTiles(n: nat)
    requires n > 0
    ensures Tiling([n], [], n) && (n == 1 ==> Tiling([], [n], n))
  {
  }

  /** The half to which a choice leads, and the piece to which several do: left or right half, again
      and again. */
  function HalfOf(c: Curve, right: bool): Curve { if right then RightHalf(c) else LeftHalf(c) }

  function Along(c: Curve, p: seq<bool>): Curve
    decreases |p|
  {
    if p == [] then c else Along(HalfOf(c, p[0]), p[1..])
  }

  /** Where that piece ends, in units of the smallest pieces. */
  function EndOf(p: seq<bool>, depth: nat): nat
    requires |p| <= depth
  {
    if p == [] then Pow2(depth) else (if p[0] then Pow2(depth - 1) else 0) + EndOf(p[1..], depth - 1)
  }

  /** The piece is flat, and it is the first one on the way that is. */
  predicate FirstFlat(c: Curve, tol: real, p: seq<bool>)
    decreases |p|
  {
    if p == [] then Flat(c, tol) else !Flat(c, tol) && FirstFlat(HalfOf(c, p[0]), tol, p[1..])
  }

  ghost predicate FlatEnd(c: Curve, tol: real, depth: nat, k: nat) {
    exists p: seq<bool> :: |p| <= depth && FirstFlat(c, tol, p) && EndOf(p, depth) == k
  }

  /** The subdivision gives the ends of exactly the pieces that are flat and lie in no larger one
      that is. */
  lemma {:induction false} SubdivisionFlat(c: Curve, tol: real, level: nat, k: nat)
    requires level <= MAX_LEVEL
    ensures k in Subdivision(c, tol, level).flat <==> FlatEnd(c, tol, MAX_LEVEL - level, k)
    decreases MAX_LEVEL - level
  {
    hide Flat, LeftHalf, RightHalf, Shifted, FlatEnd, Subdivision;
    var depth := MAX_LEVEL - level;
    SubdivisionNow(c, tol, level);
    EndHere(c, tol, depth, k);
    if !Flat(c, tol) && depth > 0 {
      var n := Pow2(depth - 1);
      SubdivisionFlat(LeftHalf(c), tol, level + 1, k);
      InShifted(Subdivision(RightHalf(c), tol, level + 1).flat, n);
      if k >= n {
        SubdivisionFlat(RightHalf(c), tol, level + 1, k - n);
      }
      EndInHalf(c, tol, depth, k);
    }
  }

  lemma EndHere(c: Curve, tol: real, depth: nat, k: nat)
    ensures Flat(c, tol) ==> (FlatEnd(c, tol, depth, k) <==> k == Pow2(depth))
    ensures !Flat(c, tol) && depth == 0 ==> !FlatEnd(c, tol, depth, k)
  {
    hide Flat, LeftHalf, RightHalf;
    if Flat(c, tol) && k == Pow2(depth) {
      assert FirstFlat(c, tol, []) && EndOf([], depth) == k;
    }
  }

  lemma EndInHalf(c: Curve, tol: real, depth: nat, k: nat)
    requires !Flat(c, tol) && depth > 0
    ensures FlatEnd(c, tol, depth, k) <==>
            FlatEnd(LeftHalf(c), tol, depth - 1, k)
                || (k >= Pow2(depth - 1) && FlatEnd(RightHalf(c), tol, depth - 1, k - Pow2(depth - 1)))
  {
    hide Flat, LeftHalf, RightHalf;
    if FlatEnd(c, tol, depth, k) {
      var p: seq<bool> :| |p| <= depth && FirstFlat(c, tol, p) && EndOf(p, depth) == k;
      assert p != [];
      assert FirstFlat(HalfOf(c, p[0]), tol, p[1..]) && EndOf(p[1..], depth - 1) == k - if p[0] then Pow2(depth - 1)
          else 0;
    }
    if FlatEnd(LeftHalf(c), tol, depth - 1, k) {
      PathMore(c, tol, depth, k, false);
    }
    if k >= Pow2(depth - 1) && FlatEnd(RightHalf(c), tol, depth - 1, k - Pow2(depth - 1)) {
      PathMore(c, tol, depth, k - Pow2(depth - 1), true);
    }
  }

  lemma PathMore(c: Curve, tol: real, depth: nat, k: nat, right: bool)
    requires !Flat(c, tol) && depth > 0 && FlatEnd(HalfOf(c, right), tol, depth - 1, k)
    ensures FlatEnd(c, tol, depth, k + if right then Pow2(depth - 1) else 0)
  {
    hide Flat, LeftHalf, RightHalf;
    var q: seq<bool> :| |q| <= depth - 1 && FirstFlat(HalfOf(c, right), tol, q) && EndOf(q, depth - 1) == k;
    var p := [right] + q;
    assert p[1..] == q && FirstFlat(c, tol, p);
  }

  /** The `l`-th of the ever smaller pieces at the end of a curve. */
  function Rightmost(c: Curve, l: nat): Curve
    decreases l
  {
    if l == 0 then c else Rightmost(RightHalf(c), l - 1)
  }

  ghost predicate FlatAtEnd(c: Curve, tol: real, depth: nat) {
    exists l :: 0 <= l <= depth && Flat(Rightmost(c, l), tol)
  }

  /** The end of the curve is given exactly if one of the pieces there, from the whole curve to the
      smallest, is flat. */
  lemma {:induction false} EndGiven(c: Curve, tol: real, level: nat)
    requires level <= MAX_LEVEL
    ensures Pow2(MAX_LEVEL - level) in Subdivision(c, tol, level).flat <==> FlatAtEnd(c, tol, MAX_LEVEL - level)
    decreases MAX_LEVEL - level
  {
    hide Flat, LeftHalf, RightHalf, Shifted, FlatAtEnd, Tiling, Subdivision, Pow2;
    var depth := MAX_LEVEL - level;
    FlatAtEndMore(c, tol, depth);
    SubdivisionNow(c, tol, level);
    if !Flat(c, tol) && depth > 0 {
      var n := Pow2(depth - 1);
      EndGiven(RightHalf(c), tol, level + 1);
      InShifted(Subdivision(RightHalf(c), tol, level + 1).flat, n);
      NotBeyond(LeftHalf(c), tol, level + 1, 2 * n);
    }
  }

  lemma NotBeyond(c: Curve, tol: real, level: nat, k: nat)
    requires level <= MAX_LEVEL && k > Pow2(MAX_LEVEL - level)
    ensures k !in Subdivision(c, tol, level).flat
  {
    hide Subdivision;
    SubdivisionTiles(c, tol, level);
    InAscending(Subdivision(c, tol, level).flat, Pow2(MAX_LEVEL - level));
  }

  lemma FlatAtEndMore(c: Curve, tol: real, depth: nat)
    ensures FlatAtEnd(c, tol, depth) <==> Flat(c, tol) || (depth > 0 && FlatAtEnd(RightHalf(c), tol, depth - 1))
  {
    hide Flat, RightHalf;
    assert Rightmost(c, 0) == c;
    if l :| 0 < l <= depth && Flat(Rightmost(c, l), tol) {
      assert Rightmost(c, l) == Rightmost(RightHalf(c), l - 1);
    }
    if depth > 0 && FlatAtEnd(RightHalf(c), tol, depth - 1) {
      var l :| 0 <= l <= depth - 1 && Flat(Rightmost(RightHalf(c), l), tol);
      assert Rightmost(c, l + 1) == Rightmost(RightHalf(c), l);
    }
  }

  ghost predicate NoneFlat(c: Curve, tol: real, depth: nat) {
    forall p: seq<bool> :: |p| <= depth ==> !Flat(Along(c, p), tol)
  }

  /** No points at all are given exactly if no piece is flat, of whatever size. */
  lemma {:induction false} NothingGiven(c: Curve, tol: real, level: nat)
    requires level <= MAX_LEVEL
    ensures Subdivision(c, tol, level).flat == [] <==> NoneFlat(c, tol, MAX_LEVEL - level)
    decreases MAX_LEVEL - level
  {
    hide Flat, LeftHalf, RightHalf, NoneFlat, Subdivision, Pow2, Shifted;
    NoneFlatMore(c, tol, MAX_LEVEL - level);
    SubdivisionNow(c, tol, level);
    if !Flat(c, tol) && level < MAX_LEVEL {
      NothingGiven(LeftHalf(c), tol, level + 1);
      NothingGiven(RightHalf(c), tol, level + 1);
      ShiftedSize(Subdivision(RightHalf(c), tol, level + 1).flat, Pow2(MAX_LEVEL - level - 1));
    }
  }

  lemma ShiftedSize(ks: seq<nat>, offset: nat)
    ensures |Shifted(ks, offset)| == |ks|
  {
  }

  lemma NoneFlatMore(c: Curve, tol: real, depth: nat)
    ensures NoneFlat(c, tol, depth) <==>
            !Flat(c, tol)
                && (depth > 0 ==> NoneFlat(LeftHalf(c), tol, depth - 1) && NoneFlat(RightHalf(c), tol, depth - 1))
  {
    hide Flat, LeftHalf, RightHalf, Along;
    AlongNothing(c);
    if NoneFlat(c, tol, depth) && depth > 0 {
      forall q: seq<bool> | |q| <= depth - 1 ensures !Flat(Along(LeftHalf(c), q), tol)
          && !Flat(Along(RightHalf(c), q), tol) {
        AlongMore(c, false, q);
        AlongMore(c, true, q);
      }
    }
    if !Flat(c, tol)
        && (depth > 0 ==> NoneFlat(LeftHalf(c), tol, depth - 1) && NoneFlat(RightHalf(c), tol, depth - 1)) {
      forall p: seq<bool> | |p| <= depth ensures !Flat(Along(c, p), tol) {
        if p != [] {
          AlongMore(c, p[0], p[1..]);
          assert [p[0]] + p[1..] == p;
        } else {
          assert p == [];
        }
      }
    }
  }

  lemma AlongNothing(c: Curve)
    ensures Along(c, []) == c
  {
  }

  lemma AlongMore(c: Curve, right: bool, q: seq<bool>)
    ensures Along(c, [right] + q) == Along(if right then RightHalf(c) else LeftHalf(c), q)
  {
    assert ([right] + q)[1..] == q;
  }

  /** A whole curve gives at most 1024 points. */
  lemma AtMost1024(c: Curve, tol: real)
    ensures |Subdivision(c, tol, 0).flat| <= 1024
  {
    SubdivisionTiles(c, tol, 0);
    AscendingBound(Subdivision(c, tol, 0).flat, Pow2(MAX_LEVEL));
    Pow1024();
  }

  /** All control points in one place. */
  predicate Collapsed(c: Curve) {
    match c
    case Cubic(p1, p2, p3, p4) => p1 == p2 == p3 == p4
    case Quadratic(q1, q2, q3) => q1 == q2 == q3
  }

  /** Such a curve is there: a piece that ends where it begins is never taken for flat, so one that
      is a single point is subdivided to the last level and gives no points at all. */
  lemma {:induction false} CollapsedGivesNothing(c: Curve, tol: real, level: nat)
    requires level <= MAX_LEVEL && Collapsed(c)
    ensures Subdivision(c, tol, level).flat == []
    decreases MAX_LEVEL - level
  {
    CollapsedHalves(c);
    CollapsedNotFlat(c, tol);
    hide Flat, LeftHalf, RightHalf, Collapsed;
    if level < MAX_LEVEL {
      CollapsedGivesNothing(LeftHalf(c), tol, level + 1);
      CollapsedGivesNothing(RightHalf(c), tol, level + 1);
    }
  }

  lemma CollapsedHalves(c: Curve)
    requires Collapsed(c)
    ensures Collapsed(LeftHalf(c)) && Collapsed(RightHalf(c))
  {
  }

  lemma CollapsedNotFlat(c: Curve, tol: real)
    requires Collapsed(c)
    ensures !Flat(c, tol)
  {
  }

  /** The points that a subdivision gives: those of the curve at the ends of its flat pieces. */
  function Given(c: Curve, tol: real, level: nat): seq<Point>
    requires level <= MAX_LEVEL
  {
    PointsAt(c, Subdivision(c, tol, level).flat, Pow2(MAX_LEVEL - level))
  }

  lemma GivenNow(c: Curve, tol: real, level: nat)
    requires level <= MAX_LEVEL
    ensures Given(c, tol, level) ==
            if Flat(c, tol) then [End(c)]
            else if level == MAX_LEVEL then []
            else Given(LeftHalf(c), tol, level + 1) + Given(RightHalf(c), tol, level + 1)
  {
    hide Flat, LeftHalf, RightHalf, At, PointsAt, Subdivision, Shifted, End, Pow2;
    SubdivisionNow(c, tol, level);
    if Flat(c, tol) {
      SinglePoint(c, Pow2(MAX_LEVEL - level));
    } else if level == MAX_LEVEL {
      NoPoint(c, Pow2(MAX_LEVEL - level));
    } else {
      JoinedPoints(c, Subdivision(LeftHalf(c), tol, level + 1).flat, Subdivision(RightHalf(c), tol, level + 1).flat,
          Pow2(MAX_LEVEL - level - 1));
    }
  }

  lemma SinglePoint(c: Curve, n: nat)
    requires n > 0
    ensures PointsAt(c, [n], n) == [End(c)]
  {
    hide At, End;
    AtEnd(c);
    QuotientIs(n as real, n as real, 1.0);
  }

  lemma NoPoint(c: Curve, n: nat)
    requires n > 0
    ensures PointsAt(c, [], n) == []
  {
  }

  /** The path that is being drawn. */
  class Path {
    var points: seq<Point>

    method CubicCasteljau(p1: Point, p2: Point, p3: Point, p4: Point, tol: real, level: nat)
      requires level <= MAX_LEVEL
      modifies this
      ensures points == old(points) + Given(Cubic(p1, p2, p3, p4), tol, level)
      decreases MAX_LEVEL - level
    {
      hide Flat, Mid, Given;
      ghost var c := Cubic(p1, p2, p3, p4);
      GivenNow(c, tol, level);
      if Flat(Cubic(p1, p2, p3, p4), tol) {
        points := points + [p4];
      } else if level < MAX_LEVEL {
        var p12, p23, p34 := Mid(p1, p2), Mid(p2, p3), Mid(p3, p4);
        var p123, p234 := Mid(p12, p23), Mid(p23, p34);
        var p1234 := Mid(p123, p234);
        CubicCasteljau(p1, p12, p123, p1234, tol, level + 1);
        CubicCasteljau(p1234, p234, p34, p4, tol, level + 1);
      }
    }

    method QuadraticCasteljau(p1: Point, p2: Point, p3: Point, tol: real, level: nat)
      requires level <= MAX_LEVEL
      modifies this
      ensures points == old(points) + Given(Quadratic(p1, p2, p3), tol, level)
      decreases MAX_LEVEL - level
    {
      hide Flat, Mid, Given;
      ghost var c := Quadratic(p1, p2, p3);
      GivenNow(c, tol, level);
      if Flat(Quadratic(p1, p2, p3), tol) {
        points := points + [p3];
      } else if level < MAX_LEVEL {
        var p12, p23 := Mid(p1, p2), Mid(p2, p3);
        var p123 := Mid(p12, p23);
        QuadraticCasteljau(p1, p12, p123, tol, level + 1);
        QuadraticCasteljau(p123, p23, p3, tol, level + 1);
      }
    }

    /** The curve from the end of the path: its points at a given number of equal steps, or as
        many as its shape calls for. */
    method BezierCubicCurveTo(p2: Point, p3: Point, p4: Point, segments: nat, tol: real)
      requires points != []
      modifies this
      ensures var c := Cubic(old(points[|points| - 1]), p2, p3, p4);
              points == old(points) +
                if segments == 0 then PointsAt(c, Subdivision(c, tol, 0).flat, 1024)
                    else PointsAt(c, UpTo(segments), segments)
    {
      hide At, Subdivision;
      var p1 := points[|points| - 1];
      ghost var c := Cubic(p1, p2, p3, p4);
      if segments == 0 {
        Pow1024();
        CubicCasteljau(p1, p2, p3, p4, tol, 0);
      } else {
        var step := 1.0 / segments as real;
        for i := 1 to segments + 1
          invariant points == old(points) + PointsAt(c, UpTo(i - 1), segments)
        {
          StepTimes(i, segments);
          UpToNext(c, i, segments);
          var t := step * i as real;
          assert t == i as real / segments as real;
          points := points + [At(Cubic(p1, p2, p3, p4), t)];
          assert points == old(points) + (PointsAt(c, UpTo(i - 1), segments) + [At(c, i as real / segments as real)]);
        }
      }
    }

    method BezierQuadraticCurveTo(p2: Point, p3: Point, segments: nat, tol: real)
      requires points != []
      modifies this
      ensures var c := Quadratic(old(points[|points| - 1]), p2, p3);
              points == old(points) +
                if segments == 0 then PointsAt(c, Subdivision(c, tol, 0).flat, 1024)
                    else PointsAt(c, UpTo(segments), segments)
    {
      hide At, Subdivision;
      var p1 := points[|points| - 1];
      ghost var c := Quadratic(p1, p2, p3);
      if segments == 0 {
        Pow1024();
        QuadraticCasteljau(p1, p2, p3, tol, 0);
      } else {
        var step := 1.0 / segments as real;
        for i := 1 to segments + 1
          invariant points == old(points) + PointsAt(c, UpTo(i - 1), segments)
        {
          StepTimes(i, segments);
          UpToNext(c, i, segments);
          var t := step * i as real;
          assert t == i as real / segments as real;
          points := points + [At(Quadratic(p1, p2, p3), t)];
          assert points == old(points) + (PointsAt(c, UpTo(i - 1), segments) + [At(c, i as real / segments as real)]);
        }
      }
    }
  }

  function UpTo(n: nat): seq<nat> { seq(n, i => i + 1) }

  lemma UpToNext(c: Curve, i: nat, n: nat)
    requires 0 < i && n > 0
    ensures PointsAt(c, UpTo(i), n) == PointsAt(c, UpTo(i - 1), n) + [At(c, i as real / n as real)]
  {
    hide At;
  }

  lemma StepTimes(i: nat, n: nat)
    requires n > 0
    ensures 1.0 / n as real * i as real == i as real / n as real
  {
    var r := n as real;
    QuotientTimes(1.0, r);
    ScaledUnit(1.0 / r, r, i as real);
    QuotientIs(i as real, r, 1.0 / r * i as real);
  }

  lemma ScaledUnit(u: real, r: real, x: real)
    requires u * r == 1.0
    ensures u * x * r == x
  {
    assert u * x * r == (u * r) * x;
  }

  lemma Pow1024()
    ensures Pow2(MAX_LEVEL) == 1024
  {
    assert Pow2(10) == 2 * Pow2(9) && Pow2(9) == 2 * Pow2(8) && Pow2(8) == 2 * Pow2(7) && Pow2(7) == 2 * Pow2(6)
        && Pow2(6) == 2 * Pow2(5) && Pow2(5) == 2 * Pow2(4) && Pow2(4) == 2 * Pow2(3) && Pow2(3) == 2 * Pow2(2)
        && Pow2(2) == 2 * Pow2(1) && Pow2(1) == 2 * Pow2(0);
  }
}
