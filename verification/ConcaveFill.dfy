/** AddConcavePolyFilled: a triangulated polygon as one primitive of a draw list. */
module ConcaveFills {
  import opened DrawCommands
  import opened DrawLists
  import P = Polylines
  import N = Triangulations
  import T = Triangulators
  import M = Meshes
  import R = Rings

  /** The vertices of a list of triangles, one triangle after another, when every point has `per`
      vertices. */
  function Corners(triangles: seq<(nat, nat, nat)>, per: nat): (tris: seq<nat>)
    ensures |tris| == 3 * |triangles|
  {
    if triangles == [] then []
    else
      var t := triangles[|triangles| - 1];
      Corners(triangles[..|triangles| - 1], per) + [t.0 * per, t.1 * per, t.2 * per]
  }

  lemma {:induction false} CornersInRange(triangles: seq<(nat, nat, nat)>, per: nat, n: nat)
    requires 1 <= per <= 2
    requires forall k :: 0 <= k < |triangles| ==> triangles[k].0 < n && triangles[k].1 < n && triangles[k].2 < n
    ensures forall t :: t in Corners(triangles, per) ==> t < n * per
  {
    if triangles != [] {
      CornersInRange(triangles[..|triangles| - 1], per, n);
    }
  }

  lemma TrianglesInRange(points: seq<N.Point>, triangles: seq<(nat, nat, nat)>, flips: seq<nat>, per: nat)
    requires T.SignedBy(points, triangles, flips) && 1 <= per <= 2
    ensures forall t :: t in Corners(triangles, per) ==> t < |points| * per
  {
    var signed := T.WithSigns(triangles, flips);
    forall k | 0 <= k < |triangles| ensures triangles[k].0 < |points| && triangles[k].1 < |points|
        && triangles[k].2 < |points| {
      assert signed[k] in signed;
    }
    CornersInRange(triangles, per, |points|);
  }

  // ------------------------------------------------------------------- fringe

  /** The point before point `i`, round the polygon. */
  function Previous(i: nat, n: nat): nat
    requires i < n
  {
    if i == 0 then n - 1 else i - 1
  }

  /** The two triangles between the inner and outer vertices of two points. */
  function EdgeTris(p: nat, i: nat): (tris: seq<nat>)
    ensures |tris| == 6
  {
    [2 * i, 2 * p, 2 * p + 1, 2 * p + 1, 2 * i + 1, 2 * i]
  }

  /** The fringe along the edges that end at the first `m` points. */
  function FringeTris(n: nat, m: nat): (tris: seq<nat>)
    requires m <= n
    ensures |tris| == 6 * m
  {
    if m == 0 then [] else FringeTris(n, m - 1) + EdgeTris(Previous(m - 1, n), m - 1)
  }

  lemma {:induction false} FringeInRange(n: nat, m: nat)
    requires m <= n
    ensures forall t :: t in FringeTris(n, m) ==> t < 2 * n
  {
    if m > 0 {
      FringeInRange(n, m - 1);
    }
  }

  /** Inner and outer vertex of the first `m` points; the outer ones are transparent. */
  function FringeVertices(g: P.Geometry, points: seq<Vec2>, white: Vec2, col: nat, m: nat): (vs: seq<Vertex>)
    requires 2 <= |points| && m <= |points|
    ensures |vs| == 2 * m
  {
    if m == 0 then []
    else FringeVertices(g, points, white, col, m - 1) + PointVertices(g, points, white, col, m - 1)
  }

  function PointVertices(g: P.Geometry, points: seq<Vec2>, white: Vec2, col: nat, i: nat): (vs: seq<Vertex>)
    requires 2 <= |points| && i < |points|
    ensures |vs| == 2
  {
    [Vertex(P.SideAt(g, points, true, i, 0), white, col),
        Vertex(P.SideAt(g, points, true, i, 1), white, P.WithoutAlpha(col))]
  }

  // -------------------------------------------------------------------- fills

  /** The triangles of a fill, with a fringe round it when it is anti-aliased. */
  function FillTris(antiAliased: bool, n: nat, triangles: seq<(nat, nat, nat)>): seq<nat> {
    if antiAliased then Corners(triangles, 2) + FringeTris(n, n) else Corners(triangles, 1)
  }

  function FillSize(antiAliased: bool, n: nat): nat { if antiAliased then 2 * n else n }

  function FillVertices(antiAliased: bool, g: P.Geometry, points: seq<Vec2>, white: Vec2, col: nat): seq<Vertex>
    requires 2 <= |points|
  {
    if antiAliased then FringeVertices(g, points, white, col, |points|) else FlatVertices(points, white, col)
  }

  /** With vertex offsets enabled, a fill of at most 65536 vertices never wraps an index. */
  lemma FillFits(points: seq<N.Point>, triangles: seq<(nat, nat, nat)>, flips: seq<nat>, antiAliased: bool,
      current: nat)
    requires T.SignedBy(points, triangles, flips) && FillSize(antiAliased, |points|) <= INDEX_RANGE
    ensures var n := FillSize(antiAliased, |points|);
            Fits(BaseAfterReserve(true, current, n), FillTris(antiAliased, |points|, triangles))
  {
    var n := FillSize(antiAliased, |points|);
    TrianglesInRange(points, triangles, flips, if antiAliased then 2 else 1);
    FringeInRange(|points|, |points|);
    SmallMeshFits(true, current, n, FillTris(antiAliased, |points|, triangles));
  }

  // ------------------------------------------------------------------ no gaps

  /** The edges of a fan: its sides lie in one triangle each, and the lines from its first point to
      the others in two. */
  lemma {:induction false} FanEdges(n: nat, x: nat, y: nat)
    requires n >= 3 && x < y
    ensures M.EdgeCount(FanTris(n), x, y) ==
            if y >= n then 0 else if y == x + 1 || (x == 0 && y == n - 1) then 1 else if x == 0 then 2 else 0
  {
    var last := [0, n - 2, n - 1];
    M.OneTriangle(0, n - 2, n - 1, x, y);
    M.EdgeCountConcat(FanTris(n - 1), last, x, y);
    assert FanTris(n) == FanTris(n - 1) + last;
    hide FanTris;
    if n > 3 {
      FanEdges(n - 1, x, y);
    } else {
      NoFanEdges(x, y);
    }
  }

  lemma NoFanEdges(x: nat, y: nat)
    ensures M.EdgeCount(FanTris(2), x, y) == 0
  {
  }

  /** A rectangle is such a fan over its four corners. */
  lemma RectFan(a: Vec2, c: Vec2, uv: Vec2, col: nat)
    ensures RECT_TRIS == FanTris(4)
    ensures forall k :: 0 <= k < 4 ==>
              var v := RectVertices(a, c, uv, col)[k].pos;
              (v.x == if k == 0 || k == 3 then a.x else c.x) && (v.y == if k < 2 then a.y else c.y)
  {
    assert FanTris(3) == [0, 1, 2];
  }

  /** The edges of a list of triangles whose points have `per` vertices each. */
  lemma {:induction false} CornersEdges(triangles: seq<(nat, nat, nat)>, ts: seq<N.Triangle>, per: nat, x: nat, y: nat)
    requires per > 0 && |ts| == |triangles|
    requires forall k :: 0 <= k < |ts| ==> (ts[k].a, ts[k].b, ts[k].c) == triangles[k]
    ensures M.EdgeCount(Corners(triangles, per), x * per, y * per) == N.TriangleCount(ts, x, y)
  {
    hide M.EdgeCount, M.EdgeOf;
    if triangles == [] {
      NoCorners(x * per, y * per);
    } else {
      var m := |triangles| - 1;
      var t := triangles[m];
      CornersEdges(triangles[..m], ts[..m], per, x, y);
      M.EdgeCountConcat(Corners(triangles[..m], per), [t.0 * per, t.1 * per, t.2 * per], x * per, y * per);
      EdgeScaled(ts[m], per, x, y);
    }
  }

  lemma NoCorners(x: nat, y: nat)
    ensures M.EdgeCount([], x, y) == 0
  {
  }

  lemma EdgeScaled(t: N.Triangle, per: nat, x: nat, y: nat)
    requires per > 0
    ensures M.EdgeCount([t.a * per, t.b * per, t.c * per], x * per, y * per) == if N.HasEdge(t, x, y) then 1 else 0
  {
    M.OneTriangle(t.a * per, t.b * per, t.c * per, x * per, y * per);
    SameScaled(t.a, x, per);
    SameScaled(t.b, x, per);
    SameScaled(t.c, x, per);
    SameScaled(t.a, y, per);
    SameScaled(t.b, y, per);
    SameScaled(t.c, y, per);
    hide M.EdgeCount;
  }

  lemma SameScaled(a: nat, b: nat, per: nat)
    requires per > 0
    ensures a * per == b * per <==> a == b
  {
  }

  /** An outer vertex is in no triangle of the fill itself. */
  lemma {:induction false} CornersInner(triangles: seq<(nat, nat, nat)>, x: nat, y: nat)
    requires x % 2 == 1
    ensures M.EdgeCount(Corners(triangles, 2), x, y) == 0 == M.EdgeCount(Corners(triangles, 2), y, x)
  {
    if triangles != [] {
      var m := |triangles| - 1;
      var t := triangles[m];
      CornersInner(triangles[..m], x, y);
      M.EdgeCountConcat(Corners(triangles[..m], 2), [t.0 * 2, t.1 * 2, t.2 * 2], x, y);
      M.EdgeCountConcat(Corners(triangles[..m], 2), [t.0 * 2, t.1 * 2, t.2 * 2], y, x);
      M.OneTriangle(t.0 * 2, t.1 * 2, t.2 * 2, x, y);
      M.OneTriangle(t.0 * 2, t.1 * 2, t.2 * 2, y, x);
      hide M.EdgeCount;
    }
  }

  /** One edge's part of the fringe. */
  lemma EdgeFills(p: nat, i: nat, x: nat, y: nat)
    requires p != i && x != y
    ensures var e := M.EdgeCount(EdgeTris(p, i), x, y);
            && (M.Round(2 * p, 2 * p + 1, 2 * i, 2 * i + 1, x, y) ==> e == 1)
            && (M.Across(2 * p, 2 * p + 1, 2 * i, 2 * i + 1, x, y) ==> e == 0 || e == 2)
            && (e != 0 ==>
                  || M.Round(2 * p, 2 * p + 1, 2 * i, 2 * i + 1, x, y)
                  || M.Across(2 * p, 2 * p + 1, 2 * i, 2 * i + 1, x, y))
  {
    assert EdgeTris(p, i) == P.Quad(2 * p, 2 * p + 1, 2 * i, 2 * i + 1);
    P.QuadEdges(2 * p, 2 * p + 1, 2 * i, 2 * i + 1, x, y);
  }

  lemma FringeNextEdges(n: nat, m: nat, x: nat, y: nat)
    requires 0 < m <= n
    ensures M.EdgeCount(FringeTris(n, m), x, y) ==
            M.EdgeCount(FringeTris(n, m - 1), x, y) + M.EdgeCount(EdgeTris(Previous(m - 1, n), m - 1), x, y)
  {
    hide M.EdgeCount;
    M.EdgeCountConcat(FringeTris(n, m - 1), EdgeTris(Previous(m - 1, n), m - 1), x, y);
  }

  lemma NoFringe(n: nat, x: nat, y: nat)
    ensures M.EdgeCount(FringeTris(n, 0), x, y) == 0
  {
  }

  /** Points `x` and `y` are the ends of a side that ends below `m`. */
  predicate SideBelow(n: nat, m: nat, x: nat, y: nat)
    requires x < n && y < n
  {
    (x == Previous(y, n) && y < m) || (y == Previous(x, n) && x < m)
  }

  /** The fringe lies along the sides once, inside and outside, and is closed at every point. */
  lemma {:induction false} FringeEdges(n: nat, m: nat, x: nat, y: nat)
    requires 3 <= n && m <= n && x < n && y < n && x != y
    ensures M.EdgeCount(FringeTris(n, m), 2 * x, 2 * y) == if SideBelow(n, m, x, y) then 1 else 0
    ensures M.EdgeCount(FringeTris(n, m), 2 * x + 1, 2 * y + 1) == if SideBelow(n, m, x, y) then 1 else 0
  {
    hide M.EdgeCount, FringeTris, EdgeTris;
    if m == 0 {
      NoFringe(n, 2 * x, 2 * y);
      NoFringe(n, 2 * x + 1, 2 * y + 1);
    } else {
      FringeEdges(n, m - 1, x, y);
      FringeNextEdges(n, m, 2 * x, 2 * y);
      FringeNextEdges(n, m, 2 * x + 1, 2 * y + 1);
      EdgeFills(Previous(m - 1, n), m - 1, 2 * x, 2 * y);
      EdgeFills(Previous(m - 1, n), m - 1, 2 * x + 1, 2 * y + 1);
    }
  }

  lemma {:induction false} FringeClosed(n: nat, m: nat, x: nat)
    requires 3 <= n && m <= n && x < n
    ensures M.EdgeCount(FringeTris(n, m), 2 * x, 2 * x + 1) ==
            (if x < m then 1 else 0) + if x + 1 < m || (x + 1 == n && m > 0) then 1 else 0
  {
    hide M.EdgeCount, FringeTris, EdgeTris;
    if m == 0 {
      NoFringe(n, 2 * x, 2 * x + 1);
    } else {
      FringeClosed(n, m - 1, x);
      FringeNextEdges(n, m, 2 * x, 2 * x + 1);
      EdgeFills(Previous(m - 1, n), m - 1, 2 * x, 2 * x + 1);
    }
  }

  lemma SidesAdjacent(n: nat, x: nat, y: nat)
    requires 3 <= n && x < n && y < n && x != y
    ensures R.Adjacent(N.Polygon(n), x, y) <==> SideBelow(n, n, x, y)
  {
    var p := N.Polygon(n);
    if x == Previous(y, n) && y > 0 {
      assert R.SameEdge(p[x], p[x + 1], x, y);
    }
    if y == Previous(x, n) && x > 0 {
      assert R.SameEdge(p[y], p[y + 1], x, y);
    }
  }

  lemma SignedEdges(points: seq<N.Point>, triangles: seq<(nat, nat, nat)>, flips: seq<nat>, per: nat, x: nat, y: nat)
    requires |points| >= 3 && T.SignedBy(points, triangles, flips) && x < |points| && y < |points| && x != y
    requires 1 <= per <= 2
    ensures var e := M.EdgeCount(Corners(triangles, per), per * x, per * y);
            && (if SideBelow(|points|, |points|, x, y) then e == 1 else e == 0 || e == 2)
            && e == M.EdgeCount(Corners(triangles, 1), x, y)
  {
    hide M.EdgeCount, Corners, R.Adjacent, N.TriangleCount, N.SignedAreas, N.Area;
    var ts := T.WithSigns(triangles, flips);
    SidesAdjacent(|points|, x, y);
    CornersEdges(triangles, ts, 1, x, y);
    CornersEdges(triangles, ts, per, x, y);
  }

  /** A fill has no gaps. Without anti-aliasing every side of the polygon lies in one triangle, and every
      other edge in none or in two. With it, every edge between inner vertices lies in none or in two, a
      side's in two: one of the fill and one of the fringe; and the fringe is closed at every point. */
  lemma FillEdges(points: seq<N.Point>, triangles: seq<(nat, nat, nat)>, flips: seq<nat>, x: nat, y: nat)
    requires |points| >= 3 && T.SignedBy(points, triangles, flips) && x < |points| && y < |points| && x != y
    ensures var n := |points|;
            var side := SideBelow(n, n, x, y);
            var plain := M.EdgeCount(FillTris(false, n, triangles), x, y);
            var inner := M.EdgeCount(FillTris(true, n, triangles), 2 * x, 2 * y);
            && (if side then plain == 1 && inner == 2 else (plain == 0 || plain == 2) && inner == plain)
            && M.EdgeCount(FillTris(true, n, triangles), 2 * x + 1, 2 * y + 1) == (if side then 1 else 0)
            && M.EdgeCount(FillTris(true, n, triangles), 2 * x, 2 * x + 1) == 2
  {
    hide M.EdgeCount, FringeTris, Corners, T.SignedBy;
    var n := |points|;
    SignedEdges(points, triangles, flips, 1, x, y);
    SignedEdges(points, triangles, flips, 2, x, y);
    CornersInner(triangles, 2 * x + 1, 2 * y + 1);
    CornersInner(triangles, 2 * x + 1, 2 * x);
    FringeEdges(n, n, x, y);
    FringeClosed(n, n, x);
    M.EdgeCountConcat(Corners(triangles, 2), FringeTris(n, n), 2 * x, 2 * y);
    M.EdgeCountConcat(Corners(triangles, 2), FringeTris(n, n), 2 * x + 1, 2 * y + 1);
    M.EdgeCountConcat(Corners(triangles, 2), FringeTris(n, n), 2 * x, 2 * x + 1);
  }

  function Positions(points: seq<N.Point>): seq<Vec2> {
    seq(|points|, k requires 0 <= k < |points| => Vec2(points[k].x as real, points[k].y as real))
  }

  lemma MoreDrawn(h: Header, trace: seq<Event>, base: nat, before: seq<nat>, tris: seq<nat>, more: seq<Index>)
    requires |more| == |tris| && forall k :: 0 <= k < |tris| ==> more[k] == ToIndex(base + tris[k])
    ensures (trace + Elems(h, Rebased(base, before))) + Elems(h, more) == trace + Elems(h, Rebased(base, before + tris))
  {
    assert Rebased(base, tris) == more;
    P.RebasedConcat(base, before, tris);
    hide Elems, Rebased;
    ElemsConcat(h, Rebased(base, before), more);
    AppendAssoc(trace, Elems(h, Rebased(base, before)), Elems(h, more));
  }

  lemma CornersNext(triangles: seq<(nat, nat, nat)>, per: nat, k: nat)
    requires k < |triangles|
    ensures var t := triangles[k];
            Corners(triangles[..k + 1], per) == Corners(triangles[..k], per) + [t.0 * per, t.1 * per, t.2 * per]
  {
    assert triangles[..k + 1][..k] == triangles[..k];
  }

  /** Writes the indices of the triangles. */
  method PutTriangles(dl: DrawList, triangles: seq<(nat, nat, nat)>, per: nat, ghost h: Header, ghost trace: seq<Event>)
    requires P.Open(dl, h, trace) && dl.idxWritePtr + 3 * |triangles| <= |dl.idxBuffer|
    modifies dl`idxBuffer, dl`idxWritePtr
    ensures dl.idxWritePtr == old(dl.idxWritePtr) + 3 * |triangles| && |dl.idxBuffer| == |old(dl.idxBuffer)|
    ensures P.Open(dl, h, trace + Elems(h, Rebased(dl.vtxCurrentIdx, Corners(triangles, per))))
  {
    hide P.Open, Elems, Rebased, ToIndex, Corners;
    ghost var base, start := dl.vtxCurrentIdx, dl.idxWritePtr;
    NoneYet(dl, h, trace, base, per, triangles[..0]);
    for k := 0 to |triangles|
      invariant dl.idxWritePtr == start + 3 * k && |dl.idxBuffer| == |old(dl.idxBuffer)|
      invariant P.Open(dl, h, trace + Elems(h, Rebased(base, Corners(triangles[..k], per))))
    {
      var t := triangles[k];
      var more :=
          [ToIndex(dl.vtxCurrentIdx + t.0 * per), ToIndex(dl.vtxCurrentIdx + t.1 * per),
          ToIndex(dl.vtxCurrentIdx + t.2 * per)];
      CornersNext(triangles, per, k);
      MoreDrawn(h, trace, base, Corners(triangles[..k], per), [t.0 * per, t.1 * per, t.2 * per], more);
      P.PutIndices(dl, more, h, trace + Elems(h, Rebased(base, Corners(triangles[..k], per))));
    }
    assert triangles[..|triangles|] == triangles;
  }

  lemma NoneYet(dl: DrawList, h: Header, trace: seq<Event>, base: nat, per: nat, none: seq<(nat, nat, nat)>)
    requires P.Open(dl, h, trace) && |none| == 0
    ensures P.Open(dl, h, trace + Elems(h, Rebased(base, Corners(none, per))))
  {
    assert trace + Elems(h, Rebased(base, Corners(none, per))) == trace;
  }

  /** Writes inner and outer vertex of every point, and the fringe between them. */
  method PutFringe(dl: DrawList, g: P.Geometry, points: seq<Vec2>, col: nat, ghost h: Header, ghost trace: seq<Event>,
      ghost before: seq<nat>)
    requires 2 <= |points| && P.Open(dl, h, trace + Elems(h, Rebased(dl.vtxCurrentIdx, before)))
    requires dl.idxWritePtr + 6 * |points| == |dl.idxBuffer| && dl.vtxWritePtr + 2 * |points| == |dl.vtxBuffer|
    modifies dl`idxBuffer, dl`idxWritePtr, dl`vtxBuffer, dl`vtxWritePtr
    ensures dl.idxWritePtr == |dl.idxBuffer| == |old(dl.idxBuffer)| && dl.vtxWritePtr == |dl.vtxBuffer|
    ensures dl.vtxBuffer ==
        old(dl.vtxBuffer[..dl.vtxWritePtr]) + FringeVertices(g, points, dl.texUvWhitePixel, col, |points|)
    ensures P.Open(dl, h, trace + Elems(h, Rebased(dl.vtxCurrentIdx, before + FringeTris(|points|, |points|))))
  {
    hide P.Open, Elems, Rebased, ToIndex, P.SideAt, P.NormalAt, FringeTris, FringeVertices;
    var normals := P.Normals(g, points, true);
    var n, white, base := |points|, dl.texUvWhitePixel, dl.vtxCurrentIdx;
    ghost var idx, vtx, kept := dl.idxWritePtr, dl.vtxWritePtr, dl.vtxBuffer[..dl.vtxWritePtr];
    FringeStart(g, points, white, col);
    assert before + FringeTris(n, 0) == before && kept + FringeVertices(g, points, white, col, 0) == kept;
    var i0 := n - 1;
    for i1 := 0 to n
      invariant i0 == if i1 == 0 then n - 1 else i1 - 1
      invariant forall i :: 0 <= i < n ==> normals[i] == P.Written(P.NormalAt(g, points, true, i))
      invariant dl.idxWritePtr == idx + 6 * i1 && |dl.idxBuffer| == |old(dl.idxBuffer)|
      invariant dl.vtxWritePtr == vtx + 2 * i1 && |dl.vtxBuffer| == |old(dl.vtxBuffer)|
      invariant dl.vtxBuffer[..dl.vtxWritePtr] == kept + FringeVertices(g, points, white, col, i1)
      invariant P.Open(dl, h, trace + Elems(h, Rebased(base, before + FringeTris(n, i1))))
    {
      FringeNext(g, points, white, col, i1);
      var dm := g.mean(normals[i0].v, normals[i1].v);
      SideIs(g, points, i1);
      PutPoint(dl,
          [Vertex(g.beside(points[i1], dm, 0), white, col),
          Vertex(g.beside(points[i1], dm, 1), white, P.WithoutAlpha(col))],
               kept, FringeVertices(g, points, white, col, i1));
      var a, b := base + 2 * i0, base + 2 * i1;
      var more := [ToIndex(b), ToIndex(a), ToIndex(a + 1), ToIndex(a + 1), ToIndex(b + 1), ToIndex(b)];
      MoreDrawn(h, trace, base, before + FringeTris(n, i1), EdgeTris(i0, i1), more);
      P.PutIndices(dl, more, h, trace + Elems(h, Rebased(base, before + FringeTris(n, i1))));
      AppendAssoc(before, FringeTris(n, i1), EdgeTris(i0, i1));
      i0 := i1;
    }
    assert dl.vtxBuffer[..dl.vtxWritePtr] == dl.vtxBuffer;
  }

  method PutPoint(dl: DrawList, vs: seq<Vertex>, ghost kept: seq<Vertex>, ghost before: seq<Vertex>)
    requires dl.vtxWritePtr + |vs| <= |dl.vtxBuffer| && dl.vtxBuffer[..dl.vtxWritePtr] == kept + before
    modifies dl`vtxBuffer, dl`vtxWritePtr
    ensures dl.vtxWritePtr == old(dl.vtxWritePtr) + |vs| && |dl.vtxBuffer| == |old(dl.vtxBuffer)|
    ensures dl.vtxBuffer[..dl.vtxWritePtr] == kept + (before + vs)
  {
    P.PutVertices(dl, vs);
    AppendAssoc(kept, before, vs);
  }

  lemma FringeStart(g: P.Geometry, points: seq<Vec2>, white: Vec2, col: nat)
    requires 2 <= |points|
    ensures FringeTris(|points|, 0) == [] && FringeVertices(g, points, white, col, 0) == []
  {
  }

  lemma FringeNext(g: P.Geometry, points: seq<Vec2>, white: Vec2, col: nat, i: nat)
    requires 2 <= |points| && i < |points|
    ensures FringeTris(|points|, i + 1) == FringeTris(|points|, i) + EdgeTris(Previous(i, |points|), i)
    ensures FringeVertices(g, points, white, col, i + 1) ==
            FringeVertices(g, points, white, col, i) + PointVertices(g, points, white, col, i)
  {
  }

  lemma SideIs(g: P.Geometry, points: seq<Vec2>, i: nat)
    requires 2 <= |points| && i < |points|
    ensures var dir := g.mean(P.NormalAt(g, points, true, Previous(i, |points|)), P.NormalAt(g, points, true, i));
            forall k :: P.SideAt(g, points, true, i, k) == g.beside(points[i], dir, k)
  {
    hide P.NormalAt;
  }

  /** Fills a polygon that need not be convex. What is drawn is a triangulation of the polygon over
      its own vertices, with a fringe along every edge when it is anti-aliased, exactly when no index
      wraps. As the vertex counter is advanced by a 16-bit count, it stays in step for less than 65536
      vertices. */
  method AddConcavePolyFilled(dl: DrawList, antiAliased: bool, g: P.Geometry, points: seq<N.Point>, col: nat,
                              clockwise: T.Clockwise, containsPoint: T.ContainsPoint)
      returns (ghost triangles: seq<(nat, nat, nat)>)
    requires dl.Valid() && dl.Settled()
    modifies dl`cmdBuffer, dl`cmdHeader, dl`vtxCurrentIdx, dl`idxBuffer, dl`vtxBuffer, dl`vtxWritePtr, dl`idxWritePtr
    ensures |points| < 3 || Transparent(col) ==>
        dl.Valid() && dl.Extents() == old(dl.Extents()) && dl.Trace() == old(dl.Trace())
    ensures dl.Settled()
    ensures |points| >= 3 && !Transparent(col) ==>
              var size, tris := FillSize(antiAliased, |points|), FillTris(antiAliased, |points|, triangles);
              && (exists flips, cuts :: T.EarClipping(points, clockwise, containsPoint, triangles, flips, cuts))
              && dl.Reserved(old(dl.Extents()), (|points| - 2) * 3 + (if antiAliased then |points| * 6 else 0), size)
              && dl.vtxBuffer ==
                  old(dl.vtxBuffer) + FillVertices(antiAliased, g, Positions(points), dl.texUvWhitePixel, col)
              && (dl.Valid() <==> size < INDEX_RANGE)
              && Covers(dl.cmdBuffer, |dl.idxBuffer|, dl.idxWritePtr)
              && (TraceOf(dl.cmdBuffer, dl.idxBuffer, dl.idxWritePtr) ==
                  old(dl.Trace()) + MeshEvents(dl.cmdHeader.clip, dl.cmdHeader.tex, |old(dl.vtxBuffer)|, tris) <==>
                  Fits(BaseAfterReserve(dl.allowVtxOffset, old(dl.vtxCurrentIdx), size), tris))
  {
    hide Render, Chained, Corners, TraceOf, Elems, Rebased, MeshEvents, Fits, FringeTris, FringeVertices;
    hide DrawList.Reserved;
    hide T.EarClipping;
    triangles := [];
    if |points| < 3 || Transparent(col) {
      return;
    }
    ghost var trace, first, size := dl.Trace(), |dl.vtxBuffer|, FillSize(antiAliased, |points|);
    ghost var h, base;
    if antiAliased {
      triangles, h, base := FillAntiAliased(dl, g, points, col, clockwise, containsPoint);
    } else {
      triangles, h, base := FillPlain(dl, points, col, clockwise, containsPoint);
    }
    ghost var tris := FillTris(antiAliased, |points|, triangles);
    IndicesResolve(h, base, tris);
    AppendCancel(trace, Elems(h, Rebased(base, tris)), MeshEvents(h.clip, h.tex, first, tris));
  }

  method FillPlain(dl: DrawList, points: seq<N.Point>, col: nat, clockwise: T.Clockwise, containsPoint: T.ContainsPoint)
      returns (ghost triangles: seq<(nat, nat, nat)>, ghost h: Header, ghost base: nat)
    requires dl.Valid() && dl.Settled() && |points| >= 3
    modifies dl`cmdBuffer, dl`cmdHeader, dl`vtxCurrentIdx, dl`idxBuffer, dl`vtxBuffer, dl`vtxWritePtr, dl`idxWritePtr
    ensures dl.Settled() && h == dl.cmdHeader && dl.Reserved(old(dl.Extents()), (|points| - 2) * 3, |points|)
    ensures h.vtxOffset + base == |old(dl.vtxBuffer)|
      && base == BaseAfterReserve(dl.allowVtxOffset, old(dl.vtxCurrentIdx), |points|)
    ensures exists flips, cuts :: T.EarClipping(points, clockwise, containsPoint, triangles, flips, cuts)
    ensures dl.vtxBuffer == old(dl.vtxBuffer) + FlatVertices(Positions(points), dl.texUvWhitePixel, col)
    ensures dl.vtxCurrentIdx == base + ToIndex(|points|) && (dl.Valid() <==> |points| < INDEX_RANGE)
    ensures P.Open(dl, h, old(dl.Trace()) + Elems(h, Rebased(base, Corners(triangles, 1))))
  {
    hide Render, Chained, Corners, TraceOf, Elems, Rebased, Fits, DrawList.Reserved;
    hide T.EarClipping;
    ghost var trace, first := dl.Trace(), |dl.vtxBuffer|;
    dl.PrimReserve((|points| - 2) * 3, |points|);
    base, h := dl.vtxCurrentIdx, dl.cmdHeader;
    assert h.vtxOffset + base == first && dl.vtxBuffer[..first] == old(dl.vtxBuffer);
    dl.FillVertices(Positions(points), col);
    var ts, flips, cuts := T.Triangulate(points, clockwise, containsPoint);
    triangles := ts;
    PutTriangles(dl, ts, 1, h, trace);
    dl.vtxCurrentIdx := dl.vtxCurrentIdx + ToIndex(|points|);
  }

  method FillAntiAliased(dl: DrawList, g: P.Geometry, points: seq<N.Point>, col: nat, clockwise: T.Clockwise,
      containsPoint: T.ContainsPoint)
      returns (ghost triangles: seq<(nat, nat, nat)>, ghost h: Header, ghost base: nat)
    requires dl.Valid() && dl.Settled() && |points| >= 3
    modifies dl`cmdBuffer, dl`cmdHeader, dl`vtxCurrentIdx, dl`idxBuffer, dl`vtxBuffer, dl`vtxWritePtr, dl`idxWritePtr
    ensures dl.Settled() && h == dl.cmdHeader
      && dl.Reserved(old(dl.Extents()), (|points| - 2) * 3 + |points| * 6, |points| * 2)
    ensures h.vtxOffset + base == |old(dl.vtxBuffer)|
      && base == BaseAfterReserve(dl.allowVtxOffset, old(dl.vtxCurrentIdx), 2 * |points|)
    ensures exists flips, cuts :: T.EarClipping(points, clockwise, containsPoint, triangles, flips, cuts)
    ensures dl.vtxBuffer == old(dl.vtxBuffer) + FringeVertices(g, Positions(points), dl.texUvWhitePixel, col, |points|)
    ensures dl.vtxCurrentIdx == base + ToIndex(2 * |points|) && (dl.Valid() <==> 2 * |points| < INDEX_RANGE)
    ensures P.Open(dl, h,
        old(dl.Trace()) + Elems(h, Rebased(base, Corners(triangles, 2) + FringeTris(|points|, |points|))))
  {
    hide Render, Chained, Corners, TraceOf, Elems, Rebased, Fits, FringeTris, FringeVertices, DrawList.Reserved;
    hide T.EarClipping;
    ghost var trace, first := dl.Trace(), |dl.vtxBuffer|;
    dl.PrimReserve((|points| - 2) * 3 + |points| * 6, |points| * 2);
    base, h := dl.vtxCurrentIdx, dl.cmdHeader;
    assert h.vtxOffset + base == first && dl.vtxBuffer[..first] == old(dl.vtxBuffer);
    var ts, flips, cuts := T.Triangulate(points, clockwise, containsPoint);
    triangles := ts;
    PutTriangles(dl, ts, 2, h, trace);
    PutFringe(dl, g, Positions(points), col, h, trace, Corners(ts, 2));
    dl.vtxCurrentIdx := dl.vtxCurrentIdx + ToIndex(|points| * 2);
  }
}
