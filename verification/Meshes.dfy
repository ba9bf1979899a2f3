/** Lists of triangles, three vertices each, and in how many of them an edge lies. */
module Meshes {
  import opened Rings

  predicate EdgeOf(a: nat, b: nat, c: nat, x: nat, y: nat) {
    SameEdge(a, b, x, y) || SameEdge(b, c, x, y) || SameEdge(c, a, x, y)
  }

  /** In how many triangles of the list the edge {x, y} lies. */
  function EdgeCount(tris: seq<nat>, x: nat, y: nat): nat {
    var n := |tris|;
    if n < 3 then 0
    else EdgeCount(tris[..n - 3], x, y) + if EdgeOf(tris[n - 3], tris[n - 2], tris[n - 1], x, y) then 1 else 0
  }

  lemma {:induction false} EdgeCountConcat(a: seq<nat>, b: seq<nat>, x: nat, y: nat)
    requires |b| % 3 == 0
    ensures EdgeCount(a + b, x, y) == EdgeCount(a, x, y) + EdgeCount(b, x, y)
  {
    if b == [] {
      assert a + b == a;
    } else {
      var n := |b|;
      assert (a + b)[..|a + b| - 3] == a + b[..n - 3];
      EdgeCountConcat(a, b[..n - 3], x, y);
    }
  }

  lemma OneTriangle(a: nat, b: nat, c: nat, x: nat, y: nat)
    ensures EdgeCount([a, b, c], x, y) == if EdgeOf(a, b, c, x, y) then 1 else 0
  {
    assert [a, b, c][..0] == [];
  }

  lemma TwoTriangles(a: nat, b: nat, c: nat, d: nat, e: nat, f: nat, x: nat, y: nat)
    ensures EdgeCount([a, b, c, d, e, f], x, y) ==
            (if EdgeOf(a, b, c, x, y) then 1 else 0) + if EdgeOf(d, e, f, x, y) then 1 else 0
  {
    assert [a, b, c, d, e, f][..3] == [a, b, c];
    OneTriangle(a, b, c, x, y);
  }

  /** The edges round the quadrangle between a1, a2 on one side and b1, b2 on the other. */
  predicate Round(a1: nat, a2: nat, b1: nat, b2: nat, x: nat, y: nat) {
    SameEdge(a1, a2, x, y) || SameEdge(b1, b2, x, y) || SameEdge(a1, b1, x, y) || SameEdge(a2, b2, x, y)
  }

  predicate Across(a1: nat, a2: nat, b1: nat, b2: nat, x: nat, y: nat) {
    SameEdge(a1, b2, x, y) || SameEdge(a2, b1, x, y)
  }

  /** Two triangles that fill that quadrangle: each of its sides lies in one of them, and one of its
      diagonals in both. */
  ghost predicate Fills(quad: seq<nat>, a1: nat, a2: nat, b1: nat, b2: nat) {
    && |quad| == 6
    && forall x: nat, y: nat :: x != y ==>
         && (Round(a1, a2, b1, b2, x, y) ==> EdgeCount(quad, x, y) == 1)
         && (Across(a1, a2, b1, b2, x, y) ==> EdgeCount(quad, x, y) == 0 || EdgeCount(quad, x, y) == 2)
         && (!Round(a1, a2, b1, b2, x, y) && !Across(a1, a2, b1, b2, x, y) ==> EdgeCount(quad, x, y) == 0)
  }

  /** Two triangles that share the diagonal between a2 and b1, however their corners are ordered. */
  lemma DiagonalFills(quad: seq<nat>, a1: nat, a2: nat, b1: nat, b2: nat)
    requires |quad| == 6 && Distinct([a1, a2, b1, b2])
    requires Corners(quad[0], quad[1], quad[2], a1, a2, b1) && Corners(quad[3], quad[4], quad[5], b2, a2, b1)
    ensures Fills(quad, a1, a2, b1, b2)
  {
    hide EdgeCount, Round, Across, Distinct;
    forall x: nat, y: nat | x != y
      ensures Round(a1, a2, b1, b2, x, y) ==> EdgeCount(quad, x, y) == 1
      ensures Across(a1, a2, b1, b2, x, y) ==> EdgeCount(quad, x, y) == 0 || EdgeCount(quad, x, y) == 2
      ensures !Round(a1, a2, b1, b2, x, y) && !Across(a1, a2, b1, b2, x, y) ==> EdgeCount(quad, x, y) == 0
    {
      DiagonalEdges(quad, a1, a2, b1, b2, x, y);
    }
  }

  lemma DiagonalEdges(quad: seq<nat>, a1: nat, a2: nat, b1: nat, b2: nat, x: nat, y: nat)
    requires |quad| == 6 && Distinct([a1, a2, b1, b2]) && x != y
    requires Corners(quad[0], quad[1], quad[2], a1, a2, b1) && Corners(quad[3], quad[4], quad[5], b2, a2, b1)
    ensures Round(a1, a2, b1, b2, x, y) ==> EdgeCount(quad, x, y) == 1
    ensures Across(a1, a2, b1, b2, x, y) ==> EdgeCount(quad, x, y) == 0 || EdgeCount(quad, x, y) == 2
    ensures !Round(a1, a2, b1, b2, x, y) && !Across(a1, a2, b1, b2, x, y) ==> EdgeCount(quad, x, y) == 0
  {
    hide EdgeCount, EdgeOf, Round, Across, Corners, Distinct;
    assert quad == [quad[0], quad[1], quad[2], quad[3], quad[4], quad[5]];
    TwoTriangles(quad[0], quad[1], quad[2], quad[3], quad[4], quad[5], x, y);
    AnyOrder(quad[0], quad[1], quad[2], a1, a2, b1, x, y);
    AnyOrder(quad[3], quad[4], quad[5], b2, a2, b1, x, y);
    FourDistinct(a1, a2, b1, b2);
    SharedSide(a1, a2, b1, b2, x, y);
  }

  lemma FourDistinct(a: nat, b: nat, c: nat, d: nat)
    requires Distinct([a, b, c, d])
    ensures a != b && a != c && a != d && b != c && b != d && c != d
  {
    var l := [a, b, c, d];
    assert l[0] == a && l[1] == b && l[2] == c && l[3] == d;
  }

  /** Two triangles with a side in common. */
  lemma SharedSide(a1: nat, a2: nat, b1: nat, b2: nat, x: nat, y: nat)
    requires a1 != a2 && a1 != b1 && a1 != b2 && a2 != b1 && a2 != b2 && b1 != b2 && x != y
    ensures var e := (if EdgeOf(a1, a2, b1, x, y) then 1 else 0) + if EdgeOf(b2, a2, b1, x, y) then 1 else 0;
            && (Round(a1, a2, b1, b2, x, y) ==> e == 1)
            && (Across(a1, a2, b1, b2, x, y) ==> e == 0 || e == 2)
            && (!Round(a1, a2, b1, b2, x, y) && !Across(a1, a2, b1, b2, x, y) ==> e == 0)
  {
  }

  /** The edges of a triangle do not depend on the order of its corners. */
  lemma AnyOrder(p: nat, q: nat, r: nat, a: nat, b: nat, c: nat, x: nat, y: nat)
    requires Corners(p, q, r, a, b, c)
    ensures EdgeOf(p, q, r, x, y) == EdgeOf(a, b, c, x, y)
  {
  }

  /** The corners of a triangle, in any order. */
  predicate Corners(p: nat, q: nat, r: nat, a: nat, b: nat, c: nat) {
    || (p == a && q == b && r == c) || (p == b && q == c && r == a) || (p == c && q == a && r == b)
    || (p == a && q == c && r == b) || (p == c && q == b && r == a) || (p == b && q == a && r == c)
  }
}
