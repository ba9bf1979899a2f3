/** AddPolyline: ribbons of triangles along a path, written into one reservation. */
module Polylines {
  import opened DrawCommands
  import opened DrawLists
  import M = Meshes

  /** How an anti-aliased line is drawn: with a texture, or with a fringe on both sides of a
      centre line or of a solid core. */
  datatype Kind = Textured | Thin | Thick

  function Stride(kind: Kind): nat { match kind case Textured => 2 case Thin => 3 case Thick => 4 }

  /** Computed positions per point. */
  function Sides(kind: Kind): nat { match kind case Thick => 4 case _ => 2 }

  /** The indices of `m` segments. */
  function IndexCount(kind: Kind, m: nat): nat {
    match kind case Textured => 6 * m case Thin => 12 * m case Thick => 18 * m
  }

  /** The triangles between a point whose vertices start at `a` and one whose vertices start at `b`. */
  function SegmentTris(kind: Kind, a: nat, b: nat): (tris: seq<nat>)
    ensures |tris| == IndexCount(kind, 1)
  {
    match kind
    case Textured => [b, a, a + 1, b + 1, a + 1, b]
    case Thin => [b, a, a + 2, a + 2, b + 2, b, b + 1, a + 1, a, a, b, b + 1]
    case Thick => [b + 1, a + 1, a + 2, a + 2, b + 2, b + 1, b + 1, a + 1, a, a, b, b + 1, b + 2, a + 2, a + 3, a + 3,
        b + 3, b + 2]
  }

  function Next(i: nat, n: nat): nat { if i + 1 == n then 0 else i + 1 }

  function SegmentCount(n: nat, closed: bool): nat
    requires n >= 2
  {
    if closed then n else n - 1
  }

  function First(kind: Kind, i: nat): nat {
    match kind case Textured => 2 * i case Thin => 3 * i case Thick => 4 * i
  }

  /** The triangles of the first `m` segments of a path over `n` points. */
  function PathTris(kind: Kind, n: nat, m: nat): seq<nat> {
    if m == 0 then [] else PathTris(kind, n, m - 1) + SegmentTris(kind, First(kind, m - 1), First(kind, Next(m - 1, n)))
  }

  /** Segments only use the vertices of the points they join, and there are exactly as many
      indices as are reserved. */
  lemma {:induction false} PathTrisInRange(kind: Kind, n: nat, m: nat)
    requires n >= 2 && m <= n
    ensures |PathTris(kind, n, m)| == IndexCount(kind, m)
    ensures forall t :: t in PathTris(kind, n, m) ==> t < First(kind, n)
  {
    if m > 0 {
      PathTrisInRange(kind, n, m - 1);
      var a, b := First(kind, m - 1), First(kind, Next(m - 1, n));
      SegmentRange(kind, a, b);
      hide SegmentTris;
    }
  }

  lemma SegmentRange(kind: Kind, a: nat, b: nat)
    ensures forall t :: t in SegmentTris(kind, a, b) ==> a <= t < a + Stride(kind) || b <= t < b + Stride(kind)
  {
  }

  /** Every vertex of the path is part of a triangle. */
  lemma {:induction false} EveryVertexUsed(kind: Kind, n: nat, m: nat, i: nat, k: nat)
    requires n >= 2 && m <= n && i < n && k < Stride(kind) && (i < m || (0 < i <= m))
    ensures First(kind, i) + k in PathTris(kind, n, m)
  {
    hide SegmentTris, First, Stride, PathTris;
    PathTrisUnfold(kind, n, m);
    var a, b := First(kind, m - 1), First(kind, Next(m - 1, n));
    if i < m - 1 {
      EveryVertexUsed(kind, n, m - 1, i, k);
    } else {
      SegmentUses(kind, a, b, k);
      assert First(kind, i) == if i < m then a else b;
    }
    InEither(First(kind, i) + k, PathTris(kind, n, m - 1), SegmentTris(kind, a, b));
  }

  lemma PathTrisUnfold(kind: Kind, n: nat, m: nat)
    requires m > 0
    ensures PathTris(kind, n, m) ==
        PathTris(kind, n, m - 1) + SegmentTris(kind, First(kind, m - 1), First(kind, Next(m - 1, n)))
  {
  }

  lemma InEither(x: nat, a: seq<nat>, b: seq<nat>)
    ensures x in a + b <==> x in a || x in b
  {
  }

  lemma SegmentUses(kind: Kind, a: nat, b: nat, k: nat)
    requires k < Stride(kind)
    ensures a + k in SegmentTris(kind, a, b) && b + k in SegmentTris(kind, a, b)
  {
    hide SegmentTris;
    match kind
    case Textured => TexturedVertices(a, b);
    case Thin => ThinVertices(a, b);
    case Thick => ThickVertices(a, b);
  }

  lemma TexturedVertices(a: nat, b: nat)
    ensures var t := SegmentTris(Textured, a, b); a in t && a + 1 in t && b in t && b + 1 in t
  {
    var t := SegmentTris(Textured, a, b);
    assert t[1] == a && t[2] == a + 1 && t[0] == b && t[3] == b + 1;
  }

  lemma ThinVertices(a: nat, b: nat)
    ensures var t := SegmentTris(Thin, a, b); a in t && a + 1 in t && a + 2 in t && b in t && b + 1 in t && b + 2 in t
  {
    var t := SegmentTris(Thin, a, b);
    assert t[1] == a && t[7] == a + 1 && t[2] == a + 2 && t[0] == b && t[6] == b + 1 && t[4] == b + 2;
  }

  lemma ThickVertices(a: nat, b: nat)
    ensures var t := SegmentTris(Thick, a, b);
            a in t && a + 1 in t && a + 2 in t && a + 3 in t && b in t && b + 1 in t && b + 2 in t && b + 3 in t
  {
    var t := SegmentTris(Thick, a, b);
    assert t[8] == a && t[1] == a + 1 && t[2] == a + 2 && t[14] == a + 3;
    assert t[10] == b && t[0] == b + 1 && t[4] == b + 2 && t[16] == b + 3;
  }

  // ------------------------------------------------------------------- no gaps

  /** Vertices of one point that are side by side across the line, and those at its rims. */
  predicate NextTo(kind: Kind, u: nat, v: nat) {
    match kind
    case Textured => u + v == 1
    case Thin => (u == 0 && 1 <= v <= 2) || (v == 0 && 1 <= u <= 2)
    case Thick => u < 4 && v < 4 && (u == v + 1 || v == u + 1)
  }

  predicate Rim(kind: Kind, u: nat) {
    match kind case Textured => u < 2 case Thin => 1 <= u <= 2 case Thick => u == 0 || u == 3
  }

  /** Two points with vertices of their own. */
  predicate Apart(kind: Kind, a: nat, b: nat) { a + Stride(kind) <= b || b + Stride(kind) <= a }

  lemma QuadApart(a1: nat, a2: nat, b1: nat, b2: nat)
    requires a1 != a2 && b1 != b2 && a1 != b1 && a1 != b2 && a2 != b1 && a2 != b2
    ensures M.Rings.Distinct([a1, a2, b1, b2])
  {
  }

  function Quad(a1: nat, a2: nat, b1: nat, b2: nat): seq<nat> { [b1, a1, a2, a2, b2, b1] }

  lemma QuadFills(a1: nat, a2: nat, b1: nat, b2: nat)
    requires a1 != a2 && b1 != b2 && a1 != b1 && a1 != b2 && a2 != b1 && a2 != b2
    ensures M.Fills(Quad(a1, a2, b1, b2), a1, a2, b1, b2)
  {
    QuadApart(a1, a2, b1, b2);
    M.DiagonalFills(Quad(a1, a2, b1, b2), a1, a2, b1, b2);
  }

  lemma QuadEdges(a1: nat, a2: nat, b1: nat, b2: nat, x: nat, y: nat)
    requires a1 != a2 && b1 != b2 && a1 != b1 && a1 != b2 && a2 != b1 && a2 != b2 && x != y
    ensures var e := M.EdgeCount(Quad(a1, a2, b1, b2), x, y);
            && (M.Round(a1, a2, b1, b2, x, y) ==> e == 1)
            && (M.Across(a1, a2, b1, b2, x, y) ==> e == 0 || e == 2)
            && (!M.Round(a1, a2, b1, b2, x, y) && !M.Across(a1, a2, b1, b2, x, y) ==> e == 0)
  {
    hide Quad;
    QuadFills(a1, a2, b1, b2);
  }

  lemma TexturedEdges(a: nat, b: nat, x: nat, y: nat)
    ensures M.EdgeCount(SegmentTris(Textured, a, b), x, y) == M.EdgeCount(Quad(a, a + 1, b, b + 1), x, y)
  {
    M.TwoTriangles(b, a, a + 1, b + 1, a + 1, b, x, y);
    M.TwoTriangles(b, a, a + 1, a + 1, b + 1, b, x, y);
  }

  lemma ThinEdges(a: nat, b: nat, x: nat, y: nat)
    ensures M.EdgeCount(SegmentTris(Thin, a, b), x, y) ==
            M.EdgeCount(Quad(a, a + 2, b, b + 2), x, y) + M.EdgeCount(Quad(a + 1, a, b + 1, b), x, y)
  {
    assert SegmentTris(Thin, a, b) == Quad(a, a + 2, b, b + 2) + Quad(a + 1, a, b + 1, b);
    M.EdgeCountConcat(Quad(a, a + 2, b, b + 2), Quad(a + 1, a, b + 1, b), x, y);
  }

  lemma ThickEdges(a: nat, b: nat, x: nat, y: nat)
    ensures M.EdgeCount(SegmentTris(Thick, a, b), x, y) ==
            M.EdgeCount(Quad(a + 1, a + 2, b + 1, b + 2), x, y) + M.EdgeCount(Quad(a + 1, a, b + 1, b), x, y)
                + M.EdgeCount(Quad(a + 2, a + 3, b + 2, b + 3), x, y)
  {
    var q1, q2, q3 := Quad(a + 1, a + 2, b + 1, b + 2), Quad(a + 1, a, b + 1, b), Quad(a + 2, a + 3, b + 2, b + 3);
    assert SegmentTris(Thick, a, b) == q1 + q2 + q3;
    M.EdgeCountConcat(q1, q2, x, y);
    M.EdgeCountConcat(q1 + q2, q3, x, y);
  }

  predicate VertexOf(kind: Kind, a: nat, b: nat, x: nat) { a <= x < a + Stride(kind) || b <= x < b + Stride(kind) }

  /** Across the line an edge of a segment lies in one triangle; along it in one at the rims, and in two
      elsewhere; a diagonal lies in two or in none. */
  lemma SegmentEdges(kind: Kind, a: nat, b: nat, x: nat, y: nat)
    requires Apart(kind, a, b) && x != y
    ensures var e := M.EdgeCount(SegmentTris(kind, a, b), x, y);
            && (a <= x < a + Stride(kind) && a <= y < a + Stride(kind) ==>
                  e == if NextTo(kind, x - a, y - a) then 1 else 0)
            && (b <= x < b + Stride(kind) && b <= y < b + Stride(kind) ==>
                  e == if NextTo(kind, x - b, y - b) then 1 else 0)
            && (a <= x < a + Stride(kind) && y - b == x - a ==> e == if Rim(kind, x - a) then 1 else 2)
            && (a <= x < a + Stride(kind) && b <= y < b + Stride(kind) && y - b != x - a ==> e == 0 || e == 2)
            && (!VertexOf(kind, a, b, x) || !VertexOf(kind, a, b, y) ==> e == 0)
  {
    hide SegmentTris, M.EdgeCount, Quad;
    match kind
    case Textured =>
      TexturedEdges(a, b, x, y);
      QuadEdges(a, a + 1, b, b + 1, x, y);
    case Thin =>
      ThinEdges(a, b, x, y);
      QuadEdges(a, a + 2, b, b + 2, x, y);
      QuadEdges(a + 1, a, b + 1, b, x, y);
    case Thick =>
      ThickEdges(a, b, x, y);
      QuadEdges(a + 1, a + 2, b + 1, b + 2, x, y);
      QuadEdges(a + 1, a, b + 1, b, x, y);
      QuadEdges(a + 2, a + 3, b + 2, b + 3, x, y);
  }

  lemma PointsApart(kind: Kind, i: nat, j: nat)
    requires i != j
    ensures Apart(kind, First(kind, i), First(kind, j))
  {
  }

  lemma SegmentSize(kind: Kind, a: nat, b: nat)
    ensures |SegmentTris(kind, a, b)| % 3 == 0
  {
  }

  lemma SameOrApart(kind: Kind, i: nat, j: nat, u: nat)
    requires u < Stride(kind)
    ensures First(kind, j) <= First(kind, i) + u < First(kind, j) + Stride(kind) <==> i == j
  {
  }

  lemma SegmentAcross(kind: Kind, n: nat, p: nat, i: nat, u: nat, v: nat)
    requires 2 <= n && p < n && i < n && u < Stride(kind) && v < Stride(kind) && u != v
    ensures M.EdgeCount(SegmentTris(kind, First(kind, p), First(kind, Next(p, n))), First(kind, i) + u,
        First(kind, i) + v) == if (i == p || i == Next(p, n)) && NextTo(kind, u, v) then 1 else 0
  {
    hide SegmentTris, M.EdgeCount;
    PointsApart(kind, p, Next(p, n));
    SegmentEdges(kind, First(kind, p), First(kind, Next(p, n)), First(kind, i) + u, First(kind, i) + v);
    SameOrApart(kind, i, p, u);
    SameOrApart(kind, i, Next(p, n), u);
    SameOrApart(kind, i, p, v);
    SameOrApart(kind, i, Next(p, n), v);
    hide First, NextTo, Stride;
  }

  lemma SegmentAlong(kind: Kind, n: nat, p: nat, i: nat, u: nat)
    requires 3 <= n && p < n && i < n && u < Stride(kind)
    ensures M.EdgeCount(SegmentTris(kind, First(kind, p), First(kind, Next(p, n))), First(kind, i) + u,
        First(kind, Next(i, n)) + u) == if i != p then 0 else if Rim(kind, u) then 1 else 2
  {
    hide SegmentTris, M.EdgeCount;
    var q, j := Next(p, n), Next(i, n);
    PointsApart(kind, p, q);
    PointsApart(kind, i, j);
    SegmentEdges(kind, First(kind, p), First(kind, q), First(kind, i) + u, First(kind, j) + u);
    SameOrApart(kind, i, p, u);
    SameOrApart(kind, i, q, u);
    SameOrApart(kind, j, p, u);
    SameOrApart(kind, j, q, u);
    hide First, NextTo, Rim, Stride;
  }

  lemma PathEmpty(kind: Kind, n: nat, x: nat, y: nat)
    ensures M.EdgeCount(PathTris(kind, n, 0), x, y) == 0
  {
  }

  lemma PathNext(kind: Kind, n: nat, m: nat, x: nat, y: nat)
    requires m > 0
    ensures M.EdgeCount(PathTris(kind, n, m), x, y) ==
            M.EdgeCount(PathTris(kind, n, m - 1), x, y)
                + M.EdgeCount(SegmentTris(kind, First(kind, m - 1), First(kind, Next(m - 1, n))), x, y)
  {
    PathTrisUnfold(kind, n, m);
    SegmentSize(kind, First(kind, m - 1), First(kind, Next(m - 1, n)));
    hide SegmentTris, PathTris;
    M.EdgeCountConcat(PathTris(kind, n, m - 1), SegmentTris(kind, First(kind, m - 1), First(kind, Next(m - 1, n))), x,
        y);
  }

  /** How many of the first `m` segments join point `i`. */
  function Joined(n: nat, m: nat, i: nat): nat {
    (if i < m then 1 else 0) + if (0 < i <= m) || (i == 0 && m == n) then 1 else 0
  }

  /** The edges across the line at a point lie in one triangle of every segment that joins it: a closed
      line has no ends, and an open one has two. */
  lemma {:induction false} PathAcross(kind: Kind, n: nat, m: nat, i: nat, u: nat, v: nat)
    requires 2 <= n && m <= n && i < n && u < Stride(kind) && v < Stride(kind) && u != v
    ensures M.EdgeCount(PathTris(kind, n, m), First(kind, i) + u, First(kind, i) + v) ==
            if NextTo(kind, u, v) then Joined(n, m, i) else 0
  {
    hide SegmentTris, PathTris, M.EdgeCount, First, NextTo, Stride;
    if m == 0 {
      PathEmpty(kind, n, First(kind, i) + u, First(kind, i) + v);
    } else {
      PathNext(kind, n, m, First(kind, i) + u, First(kind, i) + v);
      PathAcross(kind, n, m - 1, i, u, v);
      SegmentAcross(kind, n, m - 1, i, u, v);
    }
  }

  /** The edges along the line lie in one triangle at the rims, and in two elsewhere: there is no gap
      within a segment. */
  lemma {:induction false} PathAlong(kind: Kind, n: nat, m: nat, i: nat, u: nat)
    requires 3 <= n && m <= n && i < n && u < Stride(kind)
    ensures M.EdgeCount(PathTris(kind, n, m), First(kind, i) + u, First(kind, Next(i, n)) + u) ==
            if i >= m then 0 else if Rim(kind, u) then 1 else 2
  {
    hide SegmentTris, PathTris, M.EdgeCount, First, Rim, Stride;
    if m == 0 {
      PathEmpty(kind, n, First(kind, i) + u, First(kind, Next(i, n)) + u);
    } else {
      PathNext(kind, n, m, First(kind, i) + u, First(kind, Next(i, n)) + u);
      PathAlong(kind, n, m - 1, i, u);
      SegmentAlong(kind, n, m - 1, i, u);
    }
  }

  // ------------------------------------------------------------------ positions

  /** The geometry of a line, as far as it does not matter here: the normal of a segment, the
      mean of two normals, the positions beside a point in a direction, and the corners of the
      rectangle around a segment. */
  datatype Geometry = Geometry(
    normal: (Vec2, Vec2) -> Vec2,
    mean: (Vec2, Vec2) -> Vec2,
    beside: (Vec2, Vec2, nat) -> Vec2,
    corner: (Vec2, Vec2, nat) -> Vec2)

  /** A slot of the temporary buffer. */
  datatype Slot = Unwritten | Written(v: Vec2)

  /** The normal kept for point `i`: that of the segment that leaves it, or for the end of an open
      path that of the segment that reaches it. */
  function NormalAt(g: Geometry, points: seq<Vec2>, closed: bool, i: nat): Vec2
    requires |points| >= 2 && i < |points|
  {
    if !closed && i == |points| - 1 then g.normal(points[|points| - 2], points[|points| - 1])
    else g.normal(points[i], points[Next(i, |points|)])
  }

  /** Position `k` beside point `i`: at the start of an open path straight from its normal, and
      otherwise from the mean of the normals before and after it. */
  function SideAt(g: Geometry, points: seq<Vec2>, closed: bool, i: nat, k: nat): Vec2
    requires |points| >= 2 && i < |points|
  {
    var here := NormalAt(g, points, closed, i);
    if i == 0 && !closed then g.beside(points[0], here, k)
    else g.beside(points[i], g.mean(NormalAt(g, points, closed, if i == 0 then |points| - 1 else i - 1), here), k)
  }

  datatype Style = Style(uv0: Vec2, uv1: Vec2, white: Vec2, col: nat)

  /** The colour with its alpha cleared. */
  function WithoutAlpha(col: nat): nat { col % 0x100_0000 }

  /** It is transparent, and otherwise the same colour. */
  lemma AlphaCleared(col: nat)
    ensures Transparent(WithoutAlpha(col)) && (col - WithoutAlpha(col)) % 0x100_0000 == 0
    ensures col < 0x1_0000_0000 ==> (Transparent(col) <==> WithoutAlpha(col) == col)
  {
  }

  function PointVertices(kind: Kind, g: Geometry, points: seq<Vec2>, closed: bool, st: Style, i: nat): (vs: seq<Vertex>)
    requires |points| >= 2 && i < |points|
    ensures |vs| == Stride(kind)
  {
    var trans := WithoutAlpha(st.col);
    match kind
    case Textured => [Vertex(SideAt(g, points, closed, i, 0), st.uv0, st.col),
        Vertex(SideAt(g, points, closed, i, 1), st.uv1, st.col)]
    case Thin => [Vertex(points[i], st.white, st.col), Vertex(SideAt(g, points, closed, i, 0), st.white, trans),
                  Vertex(SideAt(g, points, closed, i, 1), st.white, trans)]
    case Thick => [Vertex(SideAt(g, points, closed, i, 0), st.white, trans),
        Vertex(SideAt(g, points, closed, i, 1), st.white, st.col),
                   Vertex(SideAt(g, points, closed, i, 2), st.white, st.col),
                       Vertex(SideAt(g, points, closed, i, 3), st.white, trans)]
  }

  /** The vertices of the first `m` points. */
  function PathVertices(kind: Kind, g: Geometry, points: seq<Vec2>, closed: bool, st: Style, m: nat): (vs: seq<Vertex>)
    requires |points| >= 2 && m <= |points|
    ensures |vs| == First(kind, m)
  {
    if m == 0 then []
    else PathVertices(kind, g, points, closed, st, m - 1) + PointVertices(kind, g, points, closed, st, m - 1)
  }

  // ------------------------------------------------------------------- writing

  /** The indices of a segment, cast to 16 bits. */
  function SegmentIndices(kind: Kind, idx1: nat, idx2: nat): (indices: seq<Index>)
    ensures |indices| == IndexCount(kind, 1)
  {
    Rebased(0, SegmentTris(kind, idx1, idx2))
  }

  lemma SegmentRebased(kind: Kind, base: nat, a: nat, b: nat)
    ensures SegmentIndices(kind, base + a, base + b) == Rebased(base, SegmentTris(kind, a, b))
  {
    SegmentShifted(kind, base, a, b);
    hide SegmentTris;
  }

  lemma SegmentShifted(kind: Kind, base: nat, a: nat, b: nat)
    ensures forall i :: 0 <= i < IndexCount(kind, 1) ==>
        SegmentTris(kind, base + a, base + b)[i] == base + SegmentTris(kind, a, b)[i]
  {
    match kind case Textured => case Thin => case Thick =>
  }

  lemma RebasedConcat(base: nat, a: seq<nat>, b: seq<nat>)
    ensures Rebased(base, a + b) == Rebased(base, a) + Rebased(base, b)
  {
  }

  /** What has been written so far under the open command. */
  ghost predicate Open(dl: DrawList, h: Header, trace: seq<Event>)
    reads dl`cmdBuffer, dl`idxBuffer, dl`idxWritePtr
  {
    && Covers(dl.cmdBuffer, |dl.idxBuffer|, dl.idxWritePtr) && Last(dl.cmdBuffer).header == h
    && TraceOf(dl.cmdBuffer, dl.idxBuffer, dl.idxWritePtr) == trace
  }

  method PutIndices(dl: DrawList, more: seq<Index>, ghost h: Header, ghost trace: seq<Event>)
    requires Open(dl, h, trace) && dl.idxWritePtr + |more| <= |dl.idxBuffer|
    modifies dl`idxBuffer, dl`idxWritePtr
    ensures Open(dl, h, trace + Elems(h, more))
    ensures |dl.idxBuffer| == |old(dl.idxBuffer)| && dl.idxWritePtr == old(dl.idxWritePtr) + |more|
  {
    hide Render, Chained;
    dl.idxBuffer := Splice(dl.idxBuffer, dl.idxWritePtr, more);
    TraceWrite(dl.cmdBuffer, old(dl.idxBuffer), dl.idxWritePtr, more, dl.idxBuffer);
    dl.idxWritePtr := dl.idxWritePtr + |more|;
  }

  method PutVertices(dl: DrawList, vs: seq<Vertex>)
    requires dl.vtxWritePtr + |vs| <= |dl.vtxBuffer|
    modifies dl`vtxBuffer, dl`vtxWritePtr
    ensures dl.vtxWritePtr == old(dl.vtxWritePtr) + |vs| && |dl.vtxBuffer| == |old(dl.vtxBuffer)|
    ensures dl.vtxBuffer[..dl.vtxWritePtr] == old(dl.vtxBuffer[..dl.vtxWritePtr]) + vs
  {
    dl.vtxBuffer := Splice(dl.vtxBuffer, dl.vtxWritePtr, vs);
    dl.vtxWritePtr := dl.vtxWritePtr + |vs|;
    assert dl.vtxBuffer[..dl.vtxWritePtr] == dl.vtxBuffer[..old(dl.vtxWritePtr)] + vs;
  }

  method Normals(g: Geometry, points: seq<Vec2>, closed: bool) returns (normals: array<Slot>)
    requires |points| >= 2
    ensures fresh(normals) && normals.Length == |points|
    ensures forall i :: 0 <= i < |points| ==> normals[i] == Written(NormalAt(g, points, closed, i))
  {
    normals := new Slot[|points|](_ => Unwritten);
    for i1 := 0 to SegmentCount(|points|, closed)
      invariant forall i :: 0 <= i < i1 ==> normals[i] == Written(NormalAt(g, points, closed, i))
    {
      var i2 := if i1 + 1 == |points| then 0 else i1 + 1;
      normals[i1] := Written(g.normal(points[i1], points[i2]));
    }
    if !closed {
      normals[|points| - 1] := normals[|points| - 2];
    }
  }

  /** Writes the positions beside point `i`. */
  method PutSides(g: Geometry, temps: array2<Slot>, p: Vec2, dir: Vec2, i: nat)
    requires i < temps.Length0
    modifies temps
    ensures forall k :: 0 <= k < temps.Length1 ==> temps[i, k] == Written(g.beside(p, dir, k))
    ensures forall j, k :: 0 <= j < temps.Length0 && 0 <= k < temps.Length1 && j != i ==>
        temps[j, k] == old(temps[j, k])
  {
    for k := 0 to temps.Length1
      invariant forall l :: 0 <= l < k ==> temps[i, l] == Written(g.beside(p, dir, l))
      invariant forall j, l :: 0 <= j < temps.Length0 && 0 <= l < temps.Length1 && j != i ==>
          temps[j, l] == old(temps[j, l])
    {
      temps[i, k] := Written(g.beside(p, dir, k));
    }
  }

  ghost predicate SidesKnown(g: Geometry, points: seq<Vec2>, closed: bool, temps: array2<Slot>, i: nat)
    requires |points| >= 2 && i < |points| == temps.Length0
    reads temps
  {
    forall k :: 0 <= k < temps.Length1 ==> temps[i, k] == Written(SideAt(g, points, closed, i, k))
  }

  /** The positions beside every point, and the triangles between every two of them. */
  method PutSegments(dl: DrawList, kind: Kind, g: Geometry, points: seq<Vec2>, closed: bool, normals: array<Slot>,
      temps: array2<Slot>,
                     ghost h: Header, ghost trace: seq<Event>)
    requires |points| >= 2 && normals.Length == temps.Length0 == |points| && temps.Length1 == Sides(kind)
    requires forall i :: 0 <= i < |points| ==> normals[i] == Written(NormalAt(g, points, closed, i))
    requires Open(dl, h, trace)
    requires dl.idxWritePtr + IndexCount(kind, SegmentCount(|points|, closed)) == |dl.idxBuffer|
    modifies dl`idxBuffer, dl`idxWritePtr, temps
    ensures forall i :: 0 <= i < |points| ==> SidesKnown(g, points, closed, temps, i)
    ensures dl.idxWritePtr == |dl.idxBuffer| == |old(dl.idxBuffer)|
    ensures Open(dl, h,
        trace + Elems(h, Rebased(dl.vtxCurrentIdx, PathTris(kind, |points|, SegmentCount(|points|, closed)))))
  {
    hide Open, SideAt, NormalAt, Covers, TraceOf, SegmentTris, PathTris, Elems, Rebased;
    var n := |points|;
    if !closed {
      SideAtStart(g, points);
      PutSides(g, temps, points[0], normals[0].v, 0);
      PutSides(g, temps, points[n - 1], normals[n - 1].v, n - 1);
    }
    var count, base := SegmentCount(n, closed), dl.vtxCurrentIdx;
    ghost var start := dl.idxWritePtr;
    var idx1 := base;
    NothingYet(dl, h, trace, kind, n, base);
    for i1 := 0 to count
      invariant idx1 == base + if i1 == n then 0 else First(kind, i1)
      invariant dl.idxWritePtr == start + IndexCount(kind, i1) && |dl.idxBuffer| == |old(dl.idxBuffer)|
      invariant Open(dl, h, trace + Elems(h, Rebased(base, PathTris(kind, n, i1))))
      invariant !closed || i1 == n ==> SidesKnown(g, points, closed, temps, 0)
      invariant forall i :: 1 <= i <= i1 && i < n ==> SidesKnown(g, points, closed, temps, i)
    {
      var i2 := if i1 + 1 == n then 0 else i1 + 1;
      SegmentDrawn(h, trace, kind, n, base, i1);
      SideAtNext(g, points, closed, i1);
      var idx2 := if i1 + 1 == n then base else idx1 + Stride(kind);
      label Before:
      PutSides(g, temps, points[i2], g.mean(normals[i1].v, normals[i2].v), i2);
      assert SidesKnown(g, points, closed, temps, i2);
      forall i | 0 <= i < n && i != i2 && old@Before(SidesKnown(g, points, closed, temps, i))
        ensures SidesKnown(g, points, closed, temps, i)
      {
      }
      PutIndices(dl, SegmentIndices(kind, idx1, idx2), h, trace + Elems(h, Rebased(base, PathTris(kind, n, i1))));
      idx1 := idx2;
    }
  }

  lemma SideAtStart(g: Geometry, points: seq<Vec2>)
    requires |points| >= 2
    ensures forall k :: SideAt(g, points, false, 0, k) == g.beside(points[0], NormalAt(g, points, false, 0), k)
  {
  }

  lemma SideAtNext(g: Geometry, points: seq<Vec2>, closed: bool, i: nat)
    requires |points| >= 2 && i < SegmentCount(|points|, closed)
    ensures var j := Next(i, |points|);
            forall k :: SideAt(g, points, closed, j, k) ==
                        g.beside(points[j], g.mean(NormalAt(g, points, closed, i), NormalAt(g, points, closed, j)), k)
  {
  }

  lemma SegmentDrawn(h: Header, trace: seq<Event>, kind: Kind, n: nat, base: nat, i: nat)
    requires i < n
    ensures var more := SegmentIndices(kind, base + First(kind, i), base + First(kind, Next(i, n)));
            (trace + Elems(h, Rebased(base, PathTris(kind, n, i)))) + Elems(h, more) ==
            trace + Elems(h, Rebased(base, PathTris(kind, n, i + 1)))
  {
    var a, b := First(kind, i), First(kind, Next(i, n));
    SegmentRebased(kind, base, a, b);
    RebasedConcat(base, PathTris(kind, n, i), SegmentTris(kind, a, b));
    hide Elems, Rebased, SegmentTris, SegmentIndices;
    ElemsConcat(h, Rebased(base, PathTris(kind, n, i)), SegmentIndices(kind, base + a, base + b));
    AppendAssoc(trace, Elems(h, Rebased(base, PathTris(kind, n, i))),
        Elems(h, SegmentIndices(kind, base + a, base + b)));
  }

  lemma NothingYet(dl: DrawList, h: Header, trace: seq<Event>, kind: Kind, n: nat, base: nat)
    requires Open(dl, h, trace)
    ensures Open(dl, h, trace + Elems(h, Rebased(base, PathTris(kind, n, 0))))
  {
    assert trace + Elems(h, Rebased(base, PathTris(kind, n, 0))) == trace;
  }

  /** The vertices of every point, from the positions beside it. */
  method PutPoints(dl: DrawList, kind: Kind, g: Geometry, points: seq<Vec2>, ghost closed: bool, temps: array2<Slot>,
      st: Style)
    requires |points| >= 2 && temps.Length0 == |points| && temps.Length1 == Sides(kind)
    requires forall i :: 0 <= i < |points| ==> SidesKnown(g, points, closed, temps, i)
    requires dl.vtxWritePtr + First(kind, |points|) == |dl.vtxBuffer|
    modifies dl`vtxBuffer, dl`vtxWritePtr
    ensures dl.vtxWritePtr == |dl.vtxBuffer|
    ensures dl.vtxBuffer == old(dl.vtxBuffer[..dl.vtxWritePtr]) + PathVertices(kind, g, points, closed, st, |points|)
  {
    hide SideAt, PathVertices;
    ghost var start, before := dl.vtxWritePtr, dl.vtxBuffer[..dl.vtxWritePtr];
    PathVerticesStart(kind, g, points, closed, st);
    for i := 0 to |points|
      invariant dl.vtxWritePtr == start + First(kind, i) && |dl.vtxBuffer| == |old(dl.vtxBuffer)|
      invariant dl.vtxBuffer[..dl.vtxWritePtr] == before + PathVertices(kind, g, points, closed, st, i)
    {
      assert SidesKnown(g, points, closed, temps, i);
      var vs := TempVertices(kind, g, points, closed, temps, st, i);
      PathVerticesNext(kind, g, points, closed, st, i);
      assert (before + PathVertices(kind, g, points, closed, st, i)) + vs ==
          before + (PathVertices(kind, g, points, closed, st, i) + vs);
      PutVertices(dl, vs);
    }
    assert dl.vtxBuffer[..dl.vtxWritePtr] == dl.vtxBuffer;
  }

  method TempVertices(kind: Kind, ghost g: Geometry, points: seq<Vec2>, ghost closed: bool, temps: array2<Slot>,
      st: Style, i: nat) returns (vs: seq<Vertex>)
    requires |points| >= 2 && i < |points| == temps.Length0 && temps.Length1 == Sides(kind)
      && SidesKnown(g, points, closed, temps, i)
    ensures vs == PointVertices(kind, g, points, closed, st, i)
  {
    hide SideAt;
    var trans := WithoutAlpha(st.col);
    match kind
    case Textured =>
      vs := [Vertex(temps[i, 0].v, st.uv0, st.col), Vertex(temps[i, 1].v, st.uv1, st.col)];
    case Thin =>
      vs := [Vertex(points[i], st.white, st.col), Vertex(temps[i, 0].v, st.white, trans),
          Vertex(temps[i, 1].v, st.white, trans)];
    case Thick =>
      vs := [Vertex(temps[i, 0].v, st.white, trans), Vertex(temps[i, 1].v, st.white, st.col),
             Vertex(temps[i, 2].v, st.white, st.col), Vertex(temps[i, 3].v, st.white, trans)];
  }

  lemma PathVerticesStart(kind: Kind, g: Geometry, points: seq<Vec2>, closed: bool, st: Style)
    requires |points| >= 2
    ensures PathVertices(kind, g, points, closed, st, 0) == []
  {
  }

  lemma PathVerticesNext(kind: Kind, g: Geometry, points: seq<Vec2>, closed: bool, st: Style, i: nat)
    requires |points| >= 2 && i < |points|
    ensures PathVertices(kind, g, points, closed, st, i + 1) ==
            PathVertices(kind, g, points, closed, st, i) + PointVertices(kind, g, points, closed, st, i)
  {
  }

  // ---------------------------------------------------------------- plain lines

  /** Without anti-aliasing every segment is a rectangle of its own. */
  function PlainTris(m: nat): (tris: seq<nat>)
    ensures |tris| == 6 * m && forall t :: t in tris ==> t < 4 * m
  {
    if m == 0 then [] else var b := 4 * (m - 1); PlainTris(m - 1) + [b, b + 1, b + 2, b, b + 2, b + 3]
  }

  function PlainVertices(g: Geometry, points: seq<Vec2>, st: Style, m: nat): (vs: seq<Vertex>)
    requires |points| >= 2 && m <= |points|
    ensures |vs| == 4 * m
  {
    if m == 0 then []
    else PlainVertices(g, points, st, m - 1) + PlainCorners(g, points[m - 1], points[Next(m - 1, |points|)], st)
  }

  function PlainCorners(g: Geometry, p: Vec2, q: Vec2, st: Style): (vs: seq<Vertex>)
    ensures |vs| == 4
  {
    [Vertex(g.corner(p, q, 0), st.white, st.col), Vertex(g.corner(p, q, 1), st.white, st.col),
     Vertex(g.corner(p, q, 2), st.white, st.col), Vertex(g.corner(p, q, 3), st.white, st.col)]
  }

  /** The corners of the rectangle in order. */
  lemma PlainCornersAre(g: Geometry, p: Vec2, q: Vec2, st: Style)
    ensures forall k :: 0 <= k < 4 ==> PlainCorners(g, p, q, st)[k] == Vertex(g.corner(p, q, k), st.white, st.col)
  {
  }

  lemma PlainDrawn(h: Header, trace: seq<Event>, base: nat, i: nat)
    ensures var b := base + 4 * i;
            var more := [ToIndex(b), ToIndex(b + 1), ToIndex(b + 2), ToIndex(b), ToIndex(b + 2), ToIndex(b + 3)];
            (trace + Elems(h, Rebased(base, PlainTris(i)))) + Elems(h, more) ==
                trace + Elems(h, Rebased(base, PlainTris(i + 1)))
  {
    var b := base + 4 * i;
    var more := [ToIndex(b), ToIndex(b + 1), ToIndex(b + 2), ToIndex(b), ToIndex(b + 2), ToIndex(b + 3)];
    var tri := [4 * i, 4 * i + 1, 4 * i + 2, 4 * i, 4 * i + 2, 4 * i + 3];
    assert Rebased(base, tri) == more;
    RebasedConcat(base, PlainTris(i), tri);
    hide Elems, Rebased;
    ElemsConcat(h, Rebased(base, PlainTris(i)), more);
    AppendAssoc(trace, Elems(h, Rebased(base, PlainTris(i))), Elems(h, more));
  }

  method PutPlain(dl: DrawList, g: Geometry, points: seq<Vec2>, count: nat, st: Style, ghost h: Header,
      ghost trace: seq<Event>)
    requires 2 <= |points| && count <= |points| && Open(dl, h, trace)
    requires dl.idxWritePtr + 6 * count == |dl.idxBuffer| && dl.vtxWritePtr + 4 * count == |dl.vtxBuffer|
    modifies dl`idxBuffer, dl`idxWritePtr, dl`vtxBuffer, dl`vtxWritePtr, dl`vtxCurrentIdx
    ensures dl.idxWritePtr == |dl.idxBuffer| == |old(dl.idxBuffer)|
    ensures dl.vtxWritePtr == |dl.vtxBuffer| && dl.vtxCurrentIdx == old(dl.vtxCurrentIdx) + 4 * count
    ensures dl.vtxBuffer == old(dl.vtxBuffer[..dl.vtxWritePtr]) + PlainVertices(g, points, st, count)
    ensures Open(dl, h, trace + Elems(h, Rebased(old(dl.vtxCurrentIdx), PlainTris(count))))
  {
    hide Open, Elems, Rebased, PlainTris, ToIndex;
    ghost var base, idx, vtx, before :=
        dl.vtxCurrentIdx, dl.idxWritePtr, dl.vtxWritePtr, dl.vtxBuffer[..dl.vtxWritePtr];
    NothingPlain(dl, h, trace, base);
    for i1 := 0 to count
      invariant dl.vtxCurrentIdx == base + 4 * i1 && dl.idxWritePtr == idx + 6 * i1 && dl.vtxWritePtr == vtx + 4 * i1
      invariant |dl.idxBuffer| == |old(dl.idxBuffer)| && |dl.vtxBuffer| == |old(dl.vtxBuffer)|
      invariant dl.vtxBuffer[..dl.vtxWritePtr] == before + PlainVertices(g, points, st, i1)
      invariant Open(dl, h, trace + Elems(h, Rebased(base, PlainTris(i1))))
    {
      var i2 := if i1 + 1 == |points| then 0 else i1 + 1;
      var p1, p2, b := points[i1], points[i2], dl.vtxCurrentIdx;
      assert (before + PlainVertices(g, points, st, i1)) + PlainCorners(g, p1, p2, st) ==
          before + PlainVertices(g, points, st, i1 + 1);
      PutVertices(dl, PlainCorners(g, p1, p2, st));
      PlainDrawn(h, trace, base, i1);
      PutIndices(dl, [ToIndex(b), ToIndex(b + 1), ToIndex(b + 2), ToIndex(b), ToIndex(b + 2), ToIndex(b + 3)],
                 h, trace + Elems(h, Rebased(base, PlainTris(i1))));
      dl.vtxCurrentIdx := dl.vtxCurrentIdx + 4;
    }
    assert dl.vtxBuffer[..dl.vtxWritePtr] == dl.vtxBuffer;
  }

  lemma NothingPlain(dl: DrawList, h: Header, trace: seq<Event>, base: nat)
    requires Open(dl, h, trace)
    ensures Open(dl, h, trace + Elems(h, Rebased(base, PlainTris(0))))
  {
    assert trace + Elems(h, Rebased(base, PlainTris(0))) == trace;
  }

  // ----------------------------------------------------------------- the stroke

  /** With vertex offsets enabled, a stroke of at most 65536 vertices never needs more than 16 bits. */
  lemma StrokeFits(dl: DrawList, kind: Kind, n: nat, closed: bool)
    requires n >= 2 && dl.allowVtxOffset && First(kind, n) <= INDEX_RANGE
    ensures Fits(BaseAfterReserve(true, dl.vtxCurrentIdx, First(kind, n)), PathTris(kind, n, SegmentCount(n, closed)))
  {
    PathTrisInRange(kind, n, SegmentCount(n, closed));
    SmallMeshFits(true, dl.vtxCurrentIdx, First(kind, n), PathTris(kind, n, SegmentCount(n, closed)));
  }

  /** The anti-aliased stroke: exactly the vertices and indices reserved are written, and the
      stroke is its triangles over its own vertices exactly when no index wraps. As the vertex
      counter is advanced by a 16-bit count, it stays in step for less than 65536 vertices. */
  method StrokeAntiAliased(dl: DrawList, kind: Kind, g: Geometry, points: seq<Vec2>, closed: bool, st: Style)
    requires dl.Valid() && dl.Settled() && |points| >= 2
    modifies dl`cmdBuffer, dl`cmdHeader, dl`vtxCurrentIdx, dl`idxBuffer, dl`vtxBuffer, dl`vtxWritePtr, dl`idxWritePtr
    ensures dl.Settled()
      && dl.Reserved(old(dl.Extents()), IndexCount(kind, SegmentCount(|points|, closed)), First(kind, |points|))
    ensures Covers(dl.cmdBuffer, |dl.idxBuffer|, dl.idxWritePtr) && Last(dl.cmdBuffer).header == dl.cmdHeader
    ensures dl.vtxBuffer == old(dl.vtxBuffer) + PathVertices(kind, g, points, closed, st, |points|)
    ensures |dl.idxBuffer| == |old(dl.idxBuffer)| + IndexCount(kind, SegmentCount(|points|, closed))
    ensures dl.Valid() <==> First(kind, |points|) < INDEX_RANGE
    ensures var tris := PathTris(kind, |points|, SegmentCount(|points|, closed));
            TraceOf(dl.cmdBuffer, dl.idxBuffer, dl.idxWritePtr) ==
            old(dl.Trace()) + MeshEvents(dl.cmdHeader.clip, dl.cmdHeader.tex, |old(dl.vtxBuffer)|, tris) <==>
            Fits(BaseAfterReserve(dl.allowVtxOffset, old(dl.vtxCurrentIdx), First(kind, |points|)), tris)
  {
    hide Render, Chained, PathTris, PathVertices, SideAt, TraceOf, Elems, Rebased, MeshEvents, Fits, DrawList.Reserved;
    ghost var trace, first, tris :=
        dl.Trace(), |dl.vtxBuffer|, PathTris(kind, |points|, SegmentCount(|points|, closed));
    dl.PrimReserve(IndexCount(kind, SegmentCount(|points|, closed)), First(kind, |points|));
    ghost var base, h := dl.vtxCurrentIdx, dl.cmdHeader;
    assert h.vtxOffset + base == first && dl.vtxBuffer[..first] == old(dl.vtxBuffer);
    var normals := Normals(g, points, closed);
    var temps := new Slot[|points|, Sides(kind)]((_, _) => Unwritten);
    PutSegments(dl, kind, g, points, closed, normals, temps, h, trace);
    PutPoints(dl, kind, g, points, closed, temps, st);
    dl.vtxCurrentIdx := dl.vtxCurrentIdx + ToIndex(First(kind, |points|));
    IndicesResolve(h, base, tris);
    AppendCancel(trace, Elems(h, Rebased(base, tris)), MeshEvents(h.clip, h.tex, first, tris));
  }

  /** The stroke without anti-aliasing. */
  method StrokePlain(dl: DrawList, g: Geometry, points: seq<Vec2>, closed: bool, st: Style)
    requires dl.Valid() && dl.Settled() && |points| >= 2
    modifies dl`cmdBuffer, dl`cmdHeader, dl`vtxCurrentIdx, dl`idxBuffer, dl`vtxBuffer, dl`vtxWritePtr, dl`idxWritePtr
    ensures dl.Valid() && dl.Settled()
    ensures dl.Reserved(old(dl.Extents()), SegmentCount(|points|, closed) * 6, SegmentCount(|points|, closed) * 4)
    ensures dl.vtxBuffer == old(dl.vtxBuffer) + PlainVertices(g, points, st, SegmentCount(|points|, closed))
    ensures |dl.idxBuffer| == |old(dl.idxBuffer)| + 6 * SegmentCount(|points|, closed)
    ensures var tris := PlainTris(SegmentCount(|points|, closed));
            dl.Trace() ==
                old(dl.Trace()) + MeshEvents(dl.cmdHeader.clip, dl.cmdHeader.tex, |old(dl.vtxBuffer)|, tris) <==>
            Fits(BaseAfterReserve(dl.allowVtxOffset, old(dl.vtxCurrentIdx), 4 * SegmentCount(|points|, closed)), tris)
  {
    hide Render, Chained, PlainTris, PlainVertices, TraceOf, Elems, Rebased, MeshEvents, Fits, DrawList.Reserved;
    var count := SegmentCount(|points|, closed);
    ghost var trace, first, tris := dl.Trace(), |dl.vtxBuffer|, PlainTris(count);
    dl.PrimReserve(count * 6, count * 4);
    ghost var base, h := dl.vtxCurrentIdx, dl.cmdHeader;
    assert h.vtxOffset + base == first && dl.vtxBuffer[..first] == old(dl.vtxBuffer);
    PutPlain(dl, g, points, count, st, h, trace);
    IndicesResolve(h, base, tris);
    AppendCancel(trace, Elems(h, Rebased(base, tris)), MeshEvents(h.clip, h.tex, first, tris));
  }

  const TEX_LINES_WIDTH_MAX: nat := 32

  /** How lines are to be drawn. */
  datatype LineFlags = LineFlags(antiAliased: bool, useTex: bool)

  /** A line is at least one pixel wide. */
  function LineWidth(thickness: real): (w: real)
    ensures w >= 1.0 && w >= thickness
  {
    if thickness >= 1.0 then thickness else 1.0
  }

  /** A texture serves for whole widths that it has, at the usual fringe. */
  predicate UsesTexture(useTex: bool, thickness: real, fringe: real) {
    var w := LineWidth(thickness);
    useTex && w.Floor < TEX_LINES_WIDTH_MAX && w - w.Floor as real <= 0.00001 && fringe == 1.0
  }

  /** What kind of anti-aliased line is drawn; a line that is no wider than the fringe has no core. */
  function KindFor(useTex: bool, thickness: real, fringe: real): Kind {
    if UsesTexture(useTex, thickness, fringe) then Textured
    else if thickness > fringe then Thick
    else Thin
  }

  /** A line is drawn from the texture exactly if that is allowed, at the usual fringe, and the line is as
      wide as one of the 31 widths there are, or hardly wider. */
  lemma KindIs(useTex: bool, thickness: real, fringe: real)
    ensures KindFor(useTex, thickness, fringe) == Textured <==>
            useTex && fringe == 1.0 && exists n: nat :: 1 <= n <= 31 && HardlyWider(thickness, n)
    ensures KindFor(useTex, thickness, fringe) == Thick <==>
            KindFor(useTex, thickness, fringe) != Textured && thickness > fringe
  {
    var w := LineWidth(thickness);
    if UsesTexture(useTex, thickness, fringe) {
      assert HardlyWider(thickness, w.Floor);
    }
    if n: nat :| 1 <= n <= 31 && HardlyWider(thickness, n) {
      FloorIs(w, n);
    }
  }

  /** A line narrower than a pixel counts as one pixel wide. */
  predicate HardlyWider(thickness: real, n: nat) {
    (n as real <= thickness <= n as real + 0.00001) || (n == 1 && thickness < 1.0)
  }

  lemma FloorIs(w: real, n: nat)
    requires n as real <= w < n as real + 1.0
    ensures w.Floor == n
  {
  }

  /** The coordinates of both sides of a line in the texture, per width. */
  type LineUvs = s: seq<(Vec2, Vec2)> | |s| == TEX_LINES_WIDTH_MAX + 1
    witness seq(33, _ => (Vec2(0.0, 0.0), Vec2(0.0, 0.0)))

  function LineStyle(kind: Kind, uvs: LineUvs, thickness: real, white: Vec2, col: nat): Style {
    var w := LineWidth(thickness).Floor;
    if kind == Textured && w < |uvs| then Style(uvs[w].0, uvs[w].1, white, col) else Style(white, white, white, col)
  }

  /** Draws a line along the points: nothing for fewer than two, or in a transparent colour. The
      flags, the thickness and the fringe decide how. */
  method AddPolyline(dl: DrawList, flags: LineFlags, fringe: real, g: Geometry, points: seq<Vec2>, closed: bool,
      uvs: LineUvs, thickness: real, col: nat)
    requires dl.Valid() && dl.Settled()
    modifies dl`cmdBuffer, dl`cmdHeader, dl`vtxCurrentIdx, dl`idxBuffer, dl`vtxBuffer, dl`vtxWritePtr, dl`idxWritePtr
    ensures |points| < 2 || Transparent(col) ==>
        dl.Valid() && dl.Extents() == old(dl.Extents()) && dl.Trace() == old(dl.Trace())
    ensures dl.Settled()
    ensures |points| >= 2 && !Transparent(col) ==>
              var count, kind := SegmentCount(|points|, closed), KindFor(flags.useTex, thickness, fringe);
              var st := LineStyle(kind, uvs, thickness, dl.texUvWhitePixel, col);
              var tris := if flags.antiAliased then PathTris(kind, |points|, count) else PlainTris(count);
              var vs := if flags.antiAliased then PathVertices(kind, g, points, closed, st, |points|)
                  else PlainVertices(g, points, st, count);
              && dl.vtxBuffer == old(dl.vtxBuffer) + vs && dl.Reserved(old(dl.Extents()), |tris|, |vs|)
              && (dl.Valid() <==> !flags.antiAliased || |vs| < INDEX_RANGE)
              && Covers(dl.cmdBuffer, |dl.idxBuffer|, dl.idxWritePtr)
              && (TraceOf(dl.cmdBuffer, dl.idxBuffer, dl.idxWritePtr) ==
                  old(dl.Trace()) + MeshEvents(dl.cmdHeader.clip, dl.cmdHeader.tex, |old(dl.vtxBuffer)|, tris) <==>
                  Fits(BaseAfterReserve(dl.allowVtxOffset, old(dl.vtxCurrentIdx), |vs|), tris))
  {
    hide Render, Chained, PathTris, PathVertices, PlainTris, PlainVertices, TraceOf, MeshEvents, Fits, Covers;
    hide BaseAfterReserve;
    hide DrawList.Reserved;
    if |points| < 2 || Transparent(col) {
      return;
    }
    var thickLine := thickness > fringe;
    var white := dl.texUvWhitePixel;
    PathTrisInRange(KindFor(flags.useTex, thickness, fringe), |points|, SegmentCount(|points|, closed));
    if flags.antiAliased {
      var width := if thickness >= 1.0 then thickness else 1.0;
      var whole := width.Floor;
      var useTexture := flags.useTex && whole < TEX_LINES_WIDTH_MAX && width - whole as real <= 0.00001
          && fringe == 1.0;
      if useTexture {
        StrokeAntiAliased(dl, Textured, g, points, closed, Style(uvs[whole].0, uvs[whole].1, white, col));
      } else {
        StrokeAntiAliased(dl, if thickLine then Thick else Thin, g, points, closed, Style(white, white, white, col));
      }
    } else {
      StrokePlain(dl, g, points, closed,
          LineStyle(KindFor(flags.useTex, thickness, fringe), uvs, thickness, white, col));
    }
  }
}
