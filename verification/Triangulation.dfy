/** Cutting triangles off a closed polygon, whatever decides where to cut. */
module Triangulations {
  import opened Rings

  /** An emitted triangle; `sign` is -1 when the ring was flipped an odd number of times. */
  datatype Triangle = Triangle(a: nat, b: nat, c: nat, sign: int)

  function Polygon(n: nat): (p: seq<nat>)
    ensures |p| == n && Distinct(p) && forall i :: 0 <= i < n ==> p[i] == i
  {
    seq(n, i requires 0 <= i < n => i)
  }

  predicate HasEdge(t: Triangle, x: nat, y: nat) {
    SameEdge(t.a, t.b, x, y) || SameEdge(t.b, t.c, x, y) || SameEdge(t.c, t.a, x, y)
  }

  /** In how many triangles an edge lies. */
  function TriangleCount(ts: seq<Triangle>, x: nat, y: nat): nat {
    if ts == [] then 0
    else TriangleCount(ts[..|ts| - 1], x, y) + if HasEdge(ts[|ts| - 1], x, y) then 1 else 0
  }

  function DiagonalCount(ds: seq<(nat, nat)>, x: nat, y: nat): nat {
    if ds == [] then 0
    else DiagonalCount(ds[..|ds| - 1], x, y) + if SameEdge(ds[|ds| - 1].0, ds[|ds| - 1].1, x, y) then 1 else 0
  }

  /** 1 when {x, y} is a side of the polygon on `n` points. */
  function SideCount(n: nat, x: nat, y: nat): nat {
    if Adjacent(Polygon(n), x, y) then 1 else 0
  }

  function RingCount(r: seq<nat>, x: nat, y: nat): nat {
    if Adjacent(r, x, y) then 1 else 0
  }

  /** The finished triangulation: n - 2 triangles on the polygon's points, n - 3 distinct inner
      edges; every side of the polygon lies in one triangle, every inner edge in two, and no
      other edge in any. */
  ghost predicate Triangulates(n: nat, ts: seq<Triangle>, ds: seq<(nat, nat)>) {
    && |ts| == n - 2 && |ds| == n - 3
    && (forall t :: t in ts ==> t.a < n && t.b < n && t.c < n && Distinct([t.a, t.b, t.c]))
    && forall x: nat, y: nat :: x != y ==>
         && TriangleCount(ts, x, y) == SideCount(n, x, y) + 2 * DiagonalCount(ds, x, y)
         && SideCount(n, x, y) + DiagonalCount(ds, x, y) <= 1
  }

  /** Part of the way: the triangles cut off so far fill the space between polygon and ring. */
  ghost predicate Partial(n: nat, r: seq<nat>, ts: seq<Triangle>, ds: seq<(nat, nat)>) {
    && |r| >= 3 && Distinct(r) && (forall i :: 0 <= i < |r| ==> r[i] < n)
    && |ts| == n - |r| && |ds| == n - |r|
    && (forall t :: t in ts ==> t.a < n && t.b < n && t.c < n && Distinct([t.a, t.b, t.c]))
    && (forall x: nat, y: nat :: x != y ==>
         && TriangleCount(ts, x, y) + RingCount(r, x, y) == SideCount(n, x, y) + 2 * DiagonalCount(ds, x, y)
         && SideCount(n, x, y) + DiagonalCount(ds, x, y) <= 1)
    && (forall x: nat, y: nat :: x != y && x in r && y in r ==>
         SideCount(n, x, y) + DiagonalCount(ds, x, y) == RingCount(r, x, y))
  }

  lemma PartialStart(n: nat)
    requires n >= 3
    ensures Partial(n, Polygon(n), [], [])
  {
  }

  lemma TriangleEdges(a: nat, b: nat, c: nat, s: int, x: nat, y: nat)
    requires a != b && b != c && a != c && x != y
    ensures var w := EdgeWeight(x, y);
            w(a, b) + w(b, c) + w(c, a) == (if HasEdge(Triangle(a, b, c, s), x, y) then 1 else 0) && w(c, a) == w(a, c)
  {
  }

  /** The triangle cut off at position `k` of the ring. */
  function Cut(r: seq<nat>, k: nat, s: int): Triangle
    requires k < |r|
  {
    Triangle(r[Pred(|r|, k)], r[k], r[Succ(|r|, k)], s)
  }

  /** How one cut changes the edges of the ring. */
  lemma CutRing(r: seq<nat>, k: nat, s: int, x: nat, y: nat)
    requires Distinct(r) && |r| >= 4 && k < |r| && x != y
    ensures Distinct(Remove(r, k))
    ensures RingCount(Remove(r, k), x, y) + (if HasEdge(Cut(r, k, s), x, y) then 1 else 0) ==
            RingCount(r, x, y) + if SameEdge(r[Pred(|r|, k)], r[Succ(|r|, k)], x, y) then 2 else 0
  {
    RemoveSum(EdgeWeight(x, y), r, k);
    RingEdges(r, x, y);
    RingEdges(Remove(r, k), x, y);
    TriangleEdges(r[Pred(|r|, k)], r[k], r[Succ(|r|, k)], s, x, y);
  }

  lemma CutStep(n: nat, r: seq<nat>, ts: seq<Triangle>, ds: seq<(nat, nat)>, k: nat, s: int)
    requires Partial(n, r, ts, ds) && |r| >= 4 && k < |r|
    ensures Partial(n, Remove(r, k), ts + [Cut(r, k, s)], ds + [(r[Pred(|r|, k)], r[Succ(|r|, k)])])
  {
    var r', t, d := Remove(r, k), Cut(r, k, s), (r[Pred(|r|, k)], r[Succ(|r|, k)]);
    var ts', ds' := ts + [t], ds + [d];
    assert ts'[..|ts'| - 1] == ts && ds'[..|ds'| - 1] == ds;
    assert Distinct([t.a, t.b, t.c]);
    forall x: nat, y: nat | x != y
      ensures TriangleCount(ts', x, y) + RingCount(r', x, y) == SideCount(n, x, y) + 2 * DiagonalCount(ds', x, y)
      ensures SideCount(n, x, y) + DiagonalCount(ds', x, y) <= 1
      ensures x in r' && y in r' ==> SideCount(n, x, y) + DiagonalCount(ds', x, y) == RingCount(r', x, y)
    {
      CutRing(r, k, s, x, y);
      NoShortcut(r, k);
      CutCounts(r, k, s, x, y);
    }
    assert Distinct(r') by { CutRing(r, k, s, 0, 1); }
  }

  /** The new inner edge joins two live nodes that were not neighbours, and no other pair of
      live nodes gains or loses an edge. */
  lemma CutCounts(r: seq<nat>, k: nat, s: int, x: nat, y: nat)
    requires Distinct(r) && |r| >= 4 && k < |r| && x != y
    ensures SameEdge(r[Pred(|r|, k)], r[Succ(|r|, k)], x, y) ==> x in r && y in r && RingCount(r, x, y) == 0
    ensures x in Remove(r, k) && y in Remove(r, k) ==>
              RingCount(Remove(r, k), x, y) ==
                  RingCount(r, x, y) + if SameEdge(r[Pred(|r|, k)], r[Succ(|r|, k)], x, y) then 1 else 0
  {
    CutRing(r, k, s, x, y);
    NoShortcut(r, k);
    assert r[k] !in Remove(r, k);
  }

  /** Cutting the last triangle off a ring of three uses up all its edges. */
  lemma LastCut(n: nat, r: seq<nat>, ts: seq<Triangle>, ds: seq<(nat, nat)>, k: nat, s: int)
    requires Partial(n, r, ts, ds) && |r| == 3 && k < 3
    ensures Triangulates(n, ts + [Cut(r, k, s)], ds)
  {
    var t := Cut(r, k, s);
    assert (ts + [t])[..|ts + [t]| - 1] == ts;
    assert Distinct([t.a, t.b, t.c]);
    forall x: nat, y: nat | x != y
      ensures RingCount(r, x, y) == if HasEdge(t, x, y) then 1 else 0
    {
      RingEdges(r, x, y);
      TriangleEdges(t.a, t.b, t.c, s, x, y);
      assert PathSum(EdgeWeight(x, y), r) == EdgeWeight(x, y)(r[0], r[1]) + EdgeWeight(x, y)(r[1], r[2]);
    }
  }

  // --------------------------------------------------------------------- areas

  datatype Point = Point(x: int, y: int)

  /** Twice the signed area between the origin and the segment from point `u` to point `v`. */
  function Cross(points: seq<Point>): Weight {
    (u: nat, v: nat) =>
      if u < |points| && v < |points| then points[u].x * points[v].y - points[v].x * points[u].y else 0
  }

  /** Twice the signed area enclosed by a ring: the shoelace formula. */
  function Area(points: seq<Point>, r: seq<nat>): int {
    CycleSum(Cross(points), r)
  }

  /** The signed areas of the emitted triangles, each negated when the ring was flipped an odd
      number of times before it was emitted. */
  function SignedAreas(points: seq<Point>, ts: seq<Triangle>): int {
    if ts == [] then 0
    else var t := ts[|ts| - 1]; SignedAreas(points, ts[..|ts| - 1]) + t.sign * Area(points, [t.a, t.b, t.c])
  }

  lemma CrossAntisymmetric(points: seq<Point>)
    ensures forall u, v :: Cross(points)(v, u) == -1 * Cross(points)(u, v)
  {
  }

  lemma TriangleArea(points: seq<Point>, a: nat, b: nat, c: nat)
    ensures var w := Cross(points); Area(points, [a, b, c]) == w(a, b) + w(b, c) - w(a, c)
  {
    var w := Cross(points);
    CrossAntisymmetric(points);
    assert [a, b, c][..2] == [a, b] && [a, b][..1] == [a];
    assert PathSum(w, [a, b]) == w(a, b);
    assert w(c, a) == -1 * w(a, c);
  }

  lemma CutArea(points: seq<Point>, r: seq<nat>, ts: seq<Triangle>, k: nat, s: int)
    requires k < |r| && |r| >= 2
    ensures s * Area(points, Remove(r, k)) + SignedAreas(points, ts + [Cut(r, k, s)]) ==
            s * Area(points, r) + SignedAreas(points, ts)
  {
    var w, t := Cross(points), Cut(r, k, s);
    assert (ts + [t])[..|ts + [t]| - 1] == ts;
    RemoveSum(w, r, k);
    TriangleArea(points, t.a, t.b, t.c);
    Distribute(s, Area(points, Remove(r, k)), Area(points, [t.a, t.b, t.c]));
  }

  lemma StartArea(points: seq<Point>)
    ensures 1 * Area(points, Polygon(|points|)) + SignedAreas(points, []) == Area(points, Polygon(|points|))
  {
  }

  lemma FlipArea(points: seq<Point>, r: seq<nat>)
    ensures Area(points, Reversed(r)) == -Area(points, r)
  {
    CrossAntisymmetric(points);
    ReversedSum(Cross(points), -1, r);
  }

  lemma TwoNodesNoArea(points: seq<Point>, r: seq<nat>)
    requires |r| == 2
    ensures Area(points, r) == 0
  {
    CrossAntisymmetric(points);
    assert PathSum(Cross(points), r) == Cross(points)(r[0], r[1]);
    assert Cross(points)(r[1], r[0]) == -1 * Cross(points)(r[0], r[1]);
  }

  /** Flipping a ring changes none of its edges. */
  lemma FlipPartial(n: nat, r: seq<nat>, ts: seq<Triangle>, ds: seq<(nat, nat)>)
    requires Partial(n, r, ts, ds)
    ensures Partial(n, Reversed(r), ts, ds)
  {
    var r' := Reversed(r);
    assert forall x :: x in r' ==> x in r;
    forall x: nat, y: nat | x != y ensures RingCount(r', x, y) == RingCount(r, x, y) {
      RingEdges(r, x, y);
      RingEdges(r', x, y);
      ReversedSum(EdgeWeight(x, y), 1, r);
    }
  }
}
