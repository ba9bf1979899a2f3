/** ImTriangulator: ear clipping over an intrusive ring of nodes and two unordered spans. The
    geometric predicates may answer anything. */
module Triangulators {
  import opened Rings
  import opened Triangulations

  datatype NodeType = Convex | Ear | Reflex

  /** The last position of `x`, or -1. */
  function LastIndex(s: seq<nat>, x: nat): (k: int)
    ensures -1 <= k < |s|
    ensures k >= 0 ==> s[k] == x
    ensures forall i :: k < i < |s| ==> s[i] != x
  {
    if s == [] then -1 else if s[|s| - 1] == x then |s| - 1 else LastIndex(s[..|s| - 1], x)
  }

  /** The last occurrence of `x` is overwritten by the last item. */
  function Erased(s: seq<nat>, x: nat): seq<nat> {
    var k := LastIndex(s, x);
    if k < 0 then s else s[k := s[|s| - 1]][..|s| - 1]
  }

  lemma ErasedItems(s: seq<nat>, x: nat)
    requires Distinct(s)
    ensures Distinct(Erased(s, x))
    ensures forall y :: y in Erased(s, x) <==> y in s && y != x
  {
    var k, e := LastIndex(s, x), Erased(s, x);
    forall y ensures y in e <==> y in s && y != x {
      if y in s && y != x {
        var i :| 0 <= i < |s| && s[i] == y;
        assert k >= 0 ==> e[if i == |s| - 1 then k else i] == y;
      }
    }
  }

  /** An unordered list of nodes with a fixed capacity. */
  class Span {
    const data: array<nat>
    var size: nat

    constructor (capacity: nat)
      ensures size == 0 && data.Length == capacity && fresh(data)
    {
      data := new nat[capacity];
      size := 0;
    }

    ghost function Items(): seq<nat>
      requires size <= data.Length
      reads this, data
    {
      data[..size]
    }

    method PushBack(node: nat)
      requires size < data.Length
      modifies this, data
      ensures size == old(size) + 1 && Items() == old(Items()) + [node]
    {
      data[size] := node;
      size := size + 1;
    }

    method Pop() returns (node: nat)
      requires 0 < size <= data.Length
      modifies this
      ensures size == old(size) - 1 && Items() == old(Items())[..size] && node == old(Items())[size]
    {
      size := size - 1;
      node := data[size];
    }

    method FindEraseUnsorted(idx: nat)
      requires size <= data.Length
      modifies this, data
      ensures size <= old(size) && Items() == Erased(old(Items()), idx)
    {
      var i := size - 1;
      while i >= 0
        invariant -1 <= i < size
        invariant forall k :: i < k < size ==> data[k] != idx
      {
        if data[i] == idx {
          assert LastIndex(Items(), idx) == i;
          data[i] := data[size - 1];
          size := size - 1;
          return;
        }
        i := i - 1;
      }
    }
  }

  /** `Next` and `Prev` describe the ring `r`, both ways round. */
  ghost predicate Linked(next: seq<nat>, prev: seq<nat>, r: seq<nat>) {
    && Distinct(r) && |r| >= 2
    && (forall i :: 0 <= i < |r| ==> r[i] < |next| && r[i] < |prev|)
    && (forall i :: 0 <= i < |r| ==> next[r[i]] == r[Succ(|r|, i)])
    && (forall i :: 0 <= i < |r| ==> prev[r[i]] == r[Pred(|r|, i)])
  }

  /** The items are exactly the nodes of `r` typed Ear, except node `but`. */
  ghost predicate EarsAre(items: seq<nat>, types: seq<NodeType>, r: seq<nat>, but: int) {
    && Distinct(items)
    && (forall i :: 0 <= i < |items| ==> items[i] < |types|)
    && forall x :: 0 <= x < |types| ==> (x in items <==> x in r && types[x] == Ear && x != but)
  }

  /** The items are distinct nodes typed Reflex; not every reflex node need be among them. */
  ghost predicate ReflexesAre(items: seq<nat>, types: seq<NodeType>) {
    && Distinct(items)
    && forall i :: 0 <= i < |items| ==> items[i] < |types| && types[items[i]] == Reflex
  }

  /** A span after `x` was taken out of it or put into it. */
  function Respanned(s: seq<nat>, out: bool, into: bool, x: nat): seq<nat> {
    var e := if out then Erased(s, x) else s;
    if into then e + [x] else e
  }

  /** A node of unsettled type `kind` goes into the span for its new type and out of the one
      for its old type. */
  lemma Respan(ears: seq<nat>, reflexes: seq<nat>, types: seq<NodeType>, r: seq<nat>, x: nat, kind: NodeType)
    requires EarsAre(ears, types, r, -1) && ReflexesAre(reflexes, types)
    requires x < |types| && x in r && types[x] != kind
    ensures kind == Ear ==> |ears| < |types|
    ensures kind == Reflex ==> |reflexes| < |types|
    ensures |ears| <= |types| && |reflexes| <= |types|
    ensures types[x] == Ear ==> |Erased(ears, x)| <= |types|
    ensures EarsAre(Respanned(ears, types[x] == Ear, kind == Ear, x), types[x := kind], r, -1)
    ensures ReflexesAre(Respanned(reflexes, types[x] == Reflex, kind == Reflex, x), types[x := kind])
  {
    DistinctBound(ears, |types|);
    DistinctBound(reflexes, |types|);
    RespanEars(ears, types, r, x, kind);
    RespanReflexes(reflexes, types, x, kind);
  }

  lemma RespanEars(ears: seq<nat>, types: seq<NodeType>, r: seq<nat>, x: nat, kind: NodeType)
    requires EarsAre(ears, types, r, -1)
    requires x < |types| && x in r && types[x] != kind
    ensures kind == Ear ==> |ears| < |types|
    ensures EarsAre(Respanned(ears, types[x] == Ear, kind == Ear, x), types[x := kind], r, -1)
  {
    if types[x] == Ear {
      ErasedItems(ears, x);
      var e := Erased(ears, x);
      forall i | 0 <= i < |e| ensures e[i] < |types| {
        assert e[i] in e;
      }
    } else if kind == Ear {
      RoomForOneMore(ears, |types|, x);
    }
  }

  lemma RespanReflexes(reflexes: seq<nat>, types: seq<NodeType>, x: nat, kind: NodeType)
    requires ReflexesAre(reflexes, types) && x < |types| && types[x] != kind
    ensures kind == Reflex ==> |reflexes| < |types|
    ensures ReflexesAre(Respanned(reflexes, types[x] == Reflex, kind == Reflex, x), types[x := kind])
  {
    if types[x] == Reflex {
      ErasedItems(reflexes, x);
      var e := Erased(reflexes, x);
      forall i | 0 <= i < |e| ensures e[i] < |types| && types[x := kind][e[i]] == Reflex {
        assert e[i] in e;
      }
    } else if kind == Reflex {
      RoomForOneMore(reflexes, |types|, x);
    }
  }

  lemma RingNodes(next: seq<nat>, prev: seq<nat>, r: seq<nat>)
    requires Linked(next, prev, r)
    ensures Distinct(r) && |r| >= 2 && forall i :: 0 <= i < |r| ==> r[i] < |next| && r[i] < |prev|
  {
  }

  lemma NeighboursApart(r: seq<nat>, k: nat)
    requires Distinct(r) && |r| >= 2 && k < |r|
    ensures r[Pred(|r|, k)] != r[k] && r[Succ(|r|, k)] != r[k]
  {
  }

  lemma RingSize(next: seq<nat>, prev: seq<nat>, r: seq<nat>)
    requires Linked(next, prev, r)
    ensures |r| <= |next|
  {
    DistinctBound(r, |next|);
  }

  lemma UnlinkRing(next: seq<nat>, prev: seq<nat>, r: seq<nat>, k: nat)
    requires Linked(next, prev, r) && k < |r| && |r| >= 3
    ensures var a, b, c := r[Pred(|r|, k)], r[k], r[Succ(|r|, k)];
            && prev[b] == a && next[b] == c && a < |next| && c < |prev|
            && Linked(next[a := c], prev[c := a], Remove(r, k))
            && Remove(r, k)[0] == if k == 0 then c else r[0]
  {
    var a, c := r[Pred(|r|, k)], r[Succ(|r|, k)];
    var r' := Remove(r, k);
    RemoveNodes(r, k, |next|, |prev|);
    hide Distinct, Remove;
    forall i | 0 <= i < |r'| ensures next[a := c][r'[i]] == r'[Succ(|r'|, i)] {
      UnlinkedNext(next, r, k, i);
    }
    forall i | 0 <= i < |r'| ensures prev[c := a][r'[i]] == r'[Pred(|r'|, i)] {
      UnlinkedPrev(prev, r, k, i);
    }
  }

  lemma RemoveNodes(r: seq<nat>, k: nat, n: nat, m: nat)
    requires Distinct(r) && k < |r| && |r| >= 3 && forall i :: 0 <= i < |r| ==> r[i] < n && r[i] < m
    ensures var r' := Remove(r, k);
        Distinct(r') && |r'| == |r| - 1 && forall i :: 0 <= i < |r'| ==> r'[i] < n && r'[i] < m
    ensures Remove(r, k)[0] == if k == 0 then r[Succ(|r|, k)] else r[0]
  {
  }

  lemma UnlinkedNext(next: seq<nat>, r: seq<nat>, k: nat, i: nat)
    requires Distinct(r) && |r| >= 3 && k < |r| && i < |r| - 1
    requires forall j :: 0 <= j < |r| ==> r[j] < |next| && next[r[j]] == r[Succ(|r|, j)]
    ensures next[r[Pred(|r|, k)] := r[Succ(|r|, k)]][Remove(r, k)[i]] == Remove(r, k)[Succ(|r| - 1, i)]
  {
    var j := if i < k then i else i + 1;
    assert Remove(r, k)[i] == r[j] && next[r[j]] == r[Succ(|r|, j)];
  }

  lemma UnlinkedPrev(prev: seq<nat>, r: seq<nat>, k: nat, i: nat)
    requires Distinct(r) && |r| >= 3 && k < |r| && i < |r| - 1
    requires forall j :: 0 <= j < |r| ==> r[j] < |prev| && prev[r[j]] == r[Pred(|r|, j)]
    ensures prev[r[Succ(|r|, k)] := r[Pred(|r|, k)]][Remove(r, k)[i]] == Remove(r, k)[Pred(|r| - 1, i)]
  {
    var j := if i < k then i else i + 1;
    assert Remove(r, k)[i] == r[j] && prev[r[j]] == r[Pred(|r|, j)];
  }

  /** The first `p` + 1 nodes of `r` have been turned round; the others still point onwards. */
  ghost predicate Flipped(next: seq<nat>, prev: seq<nat>, r: seq<nat>, p: nat) {
    && Distinct(r) && p < |r|
    && (forall i :: 0 <= i < |r| ==> r[i] < |next| && r[i] < |prev|)
    && (forall i :: 1 <= i <= p ==> next[r[i]] == r[i - 1])
    && (forall i :: 0 <= i < p ==> prev[r[i]] == r[i + 1])
    && next[r[0]] == r[p] && prev[r[p]] == r[0]
    && (forall i :: p < i < |r| ==> next[r[i]] == r[Succ(|r|, i)])
  }

  lemma FlipStart(next: seq<nat>, prev: seq<nat>, r: seq<nat>)
    requires Linked(next, prev, r)
    ensures |r| >= 2 && r[0] < |next| && r[0] < |prev| && next[r[0]] == r[1] && r[0] != r[1]
    ensures Flipped(next[r[0] := r[0]], prev[r[0] := r[0]], r, 0)
  {
    assert Succ(|r|, 0) == 1;
  }

  lemma FlipStep(next: seq<nat>, prev: seq<nat>, r: seq<nat>, p: nat)
    requires Flipped(next, prev, r, p) && p + 1 < |r|
    ensures r[p] < |next| && r[p] < |prev| && r[p + 1] < |next| && r[p + 1] < |prev| && r[0] < |next|
    ensures next[r[p + 1]] == r[Succ(|r|, p + 1)] && r[p + 1] != r[p] && r[p + 1] != r[0]
    ensures Flipped(next[r[p + 1] := r[p]][r[0] := r[p + 1]], prev[r[p] := r[p + 1]][r[p + 1] := r[0]], r, p + 1)
  {
  }

  lemma FlipDone(next: seq<nat>, prev: seq<nat>, r: seq<nat>, p: nat)
    requires Flipped(next, prev, r, p) && r[Succ(|r|, p)] == r[0]
    ensures p == |r| - 1
  {
  }

  lemma FlipEnd(next: seq<nat>, prev: seq<nat>, r: seq<nat>)
    requires |r| >= 2 && Flipped(next, prev, r, |r| - 1)
    ensures Linked(next, prev, Reversed(r))
  {
    hide Flipped, Distinct;
    var m, rev := |r|, Reversed(r);
    ReversedDistinct(next, prev, r);
    forall i | 0 <= i < m
      ensures rev[i] < |next| && rev[i] < |prev|
      ensures next[rev[i]] == rev[Succ(m, i)] && prev[rev[i]] == rev[Pred(m, i)]
    {
      FlippedAt(next, prev, r, m - 1 - i);
    }
  }

  lemma ReversedDistinct(next: seq<nat>, prev: seq<nat>, r: seq<nat>)
    requires |r| >= 2 && Flipped(next, prev, r, |r| - 1)
    ensures Distinct(Reversed(r))
  {
  }

  lemma FlippedAt(next: seq<nat>, prev: seq<nat>, r: seq<nat>, i: nat)
    requires i < |r| && |r| >= 2 && Flipped(next, prev, r, |r| - 1)
    ensures r[i] < |next| && r[i] < |prev|
    ensures next[r[i]] == r[Pred(|r|, i)] && prev[r[i]] == r[Succ(|r|, i)]
  {
  }

  type Clockwise = (Point, Point, Point) -> bool
  type ContainsPoint = (Point, Point, Point, Point) -> bool

  /** The corner at position `j` of the ring does not turn clockwise. */
  predicate IsReflex(points: seq<Point>, clockwise: Clockwise, r: seq<nat>, j: nat)
    requires j < |r| && forall i :: 0 <= i < |r| ==> r[i] < |points|
  {
    !clockwise(points[r[Pred(|r|, j)]], points[r[j]], points[r[Succ(|r|, j)]])
  }

  /** No node of the span other than the corners lies in the triangle. */
  predicate Tip(points: seq<Point>, containsPoint: ContainsPoint, span: seq<nat>, i0: nat, i1: nat, i2: nat)
    requires i0 < |points| && i1 < |points| && i2 < |points|
  {
    forall k :: 0 <= k < |span| && span[k] < |points| && span[k] != i0 && span[k] != i1 && span[k] != i2 ==>
      !containsPoint(points[i0], points[i1], points[i2], points[span[k]])
  }

  predicate IsTip(points: seq<Point>, containsPoint: ContainsPoint, span: seq<nat>, r: seq<nat>, j: nat)
    requires j < |r| && forall i :: 0 <= i < |r| ==> r[i] < |points|
  {
    Tip(points, containsPoint, span, r[Pred(|r|, j)], r[j], r[Succ(|r|, j)])
  }

  /** What the corner at position `j` of the ring is, given the span of reflex nodes. */
  function KindOf(points: seq<Point>, clockwise: Clockwise, containsPoint: ContainsPoint, span: seq<nat>, r: seq<nat>,
      j: nat): NodeType
    requires j < |r| && forall i :: 0 <= i < |r| ==> r[i] < |points|
  {
    if IsReflex(points, clockwise, r, j) then Reflex else if IsTip(points, containsPoint, span, r, j) then Ear
        else Convex
  }

  /** Of the first `n` nodes of the ring, the convex ones whose triangles are empty are ears now;
      the others are what they were. */
  ghost predicate EarsSoFar(points: seq<Point>, containsPoint: ContainsPoint, span: seq<nat>, r: seq<nat>,
                            before: seq<NodeType>, after: seq<NodeType>, n: nat)
  {
    && (forall i :: 0 <= i < |r| ==> r[i] < |points| == |before| == |after|)
    && forall j :: 0 <= j < |r| ==>
         after[r[j]] == if j < n && before[r[j]] == Convex && IsTip(points, containsPoint, span, r, j) then Ear
             else before[r[j]]
  }

  lemma EarsSoFarStart(points: seq<Point>, containsPoint: ContainsPoint, span: seq<nat>, r: seq<nat>,
      types: seq<NodeType>)
    requires |types| == |points| && forall i :: 0 <= i < |r| ==> r[i] < |points|
    ensures EarsSoFar(points, containsPoint, span, r, types, types, 0)
  {
  }

  lemma EarsSoFarStep(points: seq<Point>, containsPoint: ContainsPoint, span: seq<nat>, r: seq<nat>,
                      before: seq<NodeType>, after: seq<NodeType>, n: nat)
    requires Distinct(r) && n < |r| && EarsSoFar(points, containsPoint, span, r, before, after, n)
    ensures r[n] < |points| && r[Pred(|r|, n)] < |points| && r[Succ(|r|, n)] < |points| && r[n] < |after|
    ensures if after[r[n]] == Convex && Tip(points, containsPoint, span, r[Pred(|r|, n)], r[n], r[Succ(|r|, n)])
            then EarsSoFar(points, containsPoint, span, r, before, after[r[n] := Ear], n + 1)
            else EarsSoFar(points, containsPoint, span, r, before, after, n + 1)
  {
    hide Tip;
    var after' := if after[r[n]] == Convex && Tip(points, containsPoint, span, r[Pred(|r|, n)], r[n], r[Succ(|r|, n)])
        then after[r[n] := Ear] else after;
    forall j | 0 <= j < |r|
      ensures after'[r[j]] == if j < n + 1 && before[r[j]] == Convex && IsTip(points, containsPoint, span, r, j)
          then Ear else before[r[j]]
    {
      assert j != n ==> r[j] != r[n];
    }
  }

  lemma LastUntouched(points: seq<Point>, containsPoint: ContainsPoint, span: seq<nat>, r: seq<nat>,
      before: seq<NodeType>, after: seq<NodeType>)
    requires r != [] && EarsSoFar(points, containsPoint, span, r, before, after, |r| - 1)
    ensures r[|r| - 1] < |before| == |after| && after[r[|r| - 1]] == before[r[|r| - 1]]
  {
  }

  /** Every node of the ring but the last has the type its corner calls for. */
  ghost predicate Typed(points: seq<Point>, clockwise: Clockwise, containsPoint: ContainsPoint, span: seq<nat>,
      r: seq<nat>, types: seq<NodeType>) {
    && (forall i :: 0 <= i < |r| ==> r[i] < |points| == |types|)
    && forall j :: 0 <= j < |r| - 1 ==> types[r[j]] == KindOf(points, clockwise, containsPoint, span, r, j)
  }

  /** So it is once both build passes have been over nodes that were all convex. */
  lemma BothPasses(points: seq<Point>, clockwise: Clockwise, containsPoint: ContainsPoint, span: seq<nat>, r: seq<nat>,
                   types0: seq<NodeType>, types: seq<NodeType>)
    requires Distinct(r) && |types0| == |points| == |types| && forall i :: 0 <= i < |r| ==> r[i] < |points|
    requires forall j :: 0 <= j < |r| - 1 ==> types0[r[j]] == Convex
    requires |r| > 0
      && EarsSoFar(points, containsPoint, span, r, ReflexTypes(points, clockwise, r, types0, |r| - 1), types, |r| - 1)
    ensures Typed(points, clockwise, containsPoint, span, r, types)
  {
    hide ReflexTypes, EarsSoFar, KindOf, Distinct;
    forall j | 0 <= j < |r| - 1 ensures types[r[j]] == KindOf(points, clockwise, containsPoint, span, r, j) {
      BothPassesAt(points, clockwise, containsPoint, span, r, types0, types, j);
    }
  }

  lemma BothPassesAt(points: seq<Point>, clockwise: Clockwise, containsPoint: ContainsPoint, span: seq<nat>,
      r: seq<nat>,
                     types0: seq<NodeType>, types: seq<NodeType>, j: nat)
    requires Distinct(r) && |types0| == |points| == |types| && forall i :: 0 <= i < |r| ==> r[i] < |points|
    requires j < |r| - 1 && types0[r[j]] == Convex
    requires EarsSoFar(points, containsPoint, span, r, ReflexTypes(points, clockwise, r, types0, |r| - 1), types,
        |r| - 1)
    ensures types[r[j]] == KindOf(points, clockwise, containsPoint, span, r, j)
  {
    hide IsReflex, IsTip, ReflexTypes, Distinct;
    ReflexTypesAt(points, clockwise, r, types0, |r| - 1, j);
  }

  function Sign(flips: nat): int { if flips % 2 == 0 then 1 else -1 }

  lemma NextSign(flips: nat)
    ensures Sign(flips + 1) == -Sign(flips)
  {
  }

  /** The types after the first `j` nodes of the ring were visited by BuildReflexes. */
  function ReflexTypes(points: seq<Point>, clockwise: Clockwise, r: seq<nat>, types: seq<NodeType>,
      j: nat): (t: seq<NodeType>)
    requires j <= |r| && |types| == |points| && forall i :: 0 <= i < |r| ==> r[i] < |points|
    ensures |t| == |types|
  {
    if j == 0 then types
    else
      var t := ReflexTypes(points, clockwise, r, types, j - 1);
      if IsReflex(points, clockwise, r, j - 1) then t[r[j - 1] := Reflex] else t
  }

  /** A node of the ring is retyped exactly when it was visited and its corner is reflex. */
  lemma {:induction false} ReflexTypesAt(points: seq<Point>, clockwise: Clockwise, r: seq<nat>, types: seq<NodeType>,
      j: nat, i: nat)
    requires j <= |r| && |types| == |points| && Distinct(r) && (forall i :: 0 <= i < |r| ==> r[i] < |points|) && i < |r|
    ensures ReflexTypes(points, clockwise, r, types, j)[r[i]] ==
            if i < j && IsReflex(points, clockwise, r, i) then Reflex else types[r[i]]
  {
    if j > 0 {
      ReflexTypesAt(points, clockwise, r, types, j - 1, i);
    }
  }

  /** No node is given another type than Reflex. */
  lemma {:induction false} ReflexTypesOnly(points: seq<Point>, clockwise: Clockwise, r: seq<nat>,
      types: seq<NodeType>, j: nat)
    requires j <= |r| && |types| == |points| && forall i :: 0 <= i < |r| ==> r[i] < |points|
    ensures var t := ReflexTypes(points, clockwise, r, types, j);
            forall x :: 0 <= x < |types| ==> t[x] == types[x] || t[x] == Reflex
  {
    if j > 0 {
      ReflexTypesOnly(points, clockwise, r, types, j - 1);
    }
  }

  /** The span holds exactly the visited nodes typed Reflex. */
  ghost predicate ReflexesBuilt(items: seq<nat>, types: seq<NodeType>, visited: seq<nat>) {
    && ReflexesAre(items, types)
    && forall x :: 0 <= x < |types| ==> (x in items <==> x in visited && types[x] == Reflex)
  }

  lemma BuildReflexStart(points: seq<Point>, clockwise: Clockwise, r: seq<nat>, types: seq<NodeType>)
    requires |types| == |points| && forall i :: 0 <= i < |r| ==> r[i] < |points|
    ensures ReflexesBuilt([], types, r[..0]) && ReflexTypes(points, clockwise, r, types, 0) == types
  {
  }

  lemma BuildReflexEnd(items: seq<nat>, types: seq<NodeType>, visited: seq<nat>)
    requires ReflexesBuilt(items, types, visited)
    ensures ReflexesAre(items, types)
  {
  }

  /** Visiting position `j` types its node and enters it in the span when its corner is reflex. */
  lemma BuildReflexStep(points: seq<Point>, clockwise: Clockwise, items: seq<nat>, types0: seq<NodeType>, r: seq<nat>,
      j: nat)
    requires j < |r| && Distinct(r) && |types0| == |points| && forall i :: 0 <= i < |r| ==> r[i] < |points|
    requires ReflexesBuilt(items, ReflexTypes(points, clockwise, r, types0, j), r[..j])
    requires types0[r[j]] != Reflex
    ensures IsReflex(points, clockwise, r, j) ==
        !clockwise(points[r[Pred(|r|, j)]], points[r[j]], points[r[Succ(|r|, j)]])
    ensures var t := ReflexTypes(points, clockwise, r, types0, j);
            if IsReflex(points, clockwise, r, j) then
              && ReflexTypes(points, clockwise, r, types0, j + 1) == t[r[j] := Reflex]
              && ReflexesBuilt(items + [r[j]], t[r[j] := Reflex], r[..j + 1])
            else
              && ReflexTypes(points, clockwise, r, types0, j + 1) == t
              && ReflexesBuilt(items, t, r[..j + 1])
  {
    ReflexTypesAt(points, clockwise, r, types0, j, j);
    ReflexesBuiltStep(items, ReflexTypes(points, clockwise, r, types0, j), r, j);
  }

  lemma ReflexesBuiltStep(items: seq<nat>, types: seq<NodeType>, r: seq<nat>, j: nat)
    requires j < |r| && Distinct(r) && r[j] < |types| && types[r[j]] != Reflex
    requires ReflexesBuilt(items, types, r[..j])
    ensures ReflexesBuilt(items, types, r[..j + 1])
    ensures ReflexesBuilt(items + [r[j]], types[r[j] := Reflex], r[..j + 1])
  {
    assert r[..j + 1] == r[..j] + [r[j]];
    assert r[j] !in r[..j];
  }

  lemma AllConvex(types: seq<NodeType>, items: seq<nat>)
    requires items == []
    ensures ReflexesAre(items, types)
  {
  }

  lemma NoEarsYet(types: seq<NodeType>, r: seq<nat>)
    requires forall i :: 0 <= i < |r| ==> r[i] < |types| && types[r[i]] != Ear
    ensures EarsAre([], types, r, -1)
  {
  }

  /** Some node of the ring is typed Ear. */
  ghost predicate EarLeft(types: seq<NodeType>, r: seq<nat>) {
    exists x :: 0 <= x < |types| && x in r && types[x] == Ear
  }

  lemma EarLeftExactly(items: seq<nat>, types: seq<NodeType>, r: seq<nat>)
    requires EarsAre(items, types, r, -1)
    ensures EarLeft(types, r) <==> items != []
    ensures items != [] ==> items[|items| - 1] < |types| && types[items[|items| - 1]] == Ear
  {
    if items != [] {
      assert items[|items| - 1] in items;
    }
  }

  /** Taking the last ear off the span leaves the others. */
  lemma EarsPop(items: seq<nat>, types: seq<NodeType>, r: seq<nat>)
    requires EarsAre(items, types, r, -1) && items != []
    ensures items[|items| - 1] in r
    ensures EarsAre(items[..|items| - 1], types, r, items[|items| - 1])
  {
    var rest, e := items[..|items| - 1], items[|items| - 1];
    assert items == rest + [e] && e in items;
    assert forall x :: x in items <==> x in rest || x == e;
  }

  /** Without ears any node will do. */
  lemma EarsNone(types: seq<NodeType>, r: seq<nat>, e: nat)
    requires EarsAre([], types, r, -1)
    ensures EarsAre([], types, r, e)
  {
  }

  /** Once the excepted node has left the ring, the span is exact again. */
  lemma EarsUnlink(items: seq<nat>, types: seq<NodeType>, r: seq<nat>, k: nat)
    requires k < |r| && Distinct(r) && EarsAre(items, types, r, r[k])
    ensures EarsAre(items, types, Remove(r, k), -1)
  {
    assert r[k] !in Remove(r, k);
    assert forall x :: x in r <==> x in Remove(r, k) || x == r[k];
  }

  lemma NoEars(items: seq<nat>, types: seq<NodeType>, r: seq<nat>)
    requires items == [] && EarsAre(items, types, r, -1)
    requires forall i :: 0 <= i < |r| ==> r[i] < |types|
    ensures forall i :: 0 <= i < |r| ==> types[r[i]] != Ear
  {
    forall i | 0 <= i < |r| ensures types[r[i]] != Ear {
      assert r[i] in r;
    }
  }

  /** Where a cut node's neighbours are afterwards. */
  lemma CutSpots(r: seq<nat>, k: nat)
    requires |r| >= 3 && k < |r|
    ensures var r' := Remove(r, k);
            && r'[if k == 0 then |r'| - 1 else k - 1] == r[Pred(|r|, k)]
            && r'[if k == |r'| then 0 else k] == r[Succ(|r|, k)]
  {
  }

  /** One cut, seen from the outside. */
  lemma CutProgress(points: seq<Point>, r: seq<nat>, left: nat, ts: seq<Triangle>, ds: seq<(nat, nat)>, sign: int,
      k: nat)
    requires left > 0 && |r| == left + 2 && k < |r| && Partial(|points|, r, ts, ds)
    requires sign * Area(points, r) + SignedAreas(points, ts) == Area(points, Polygon(|points|))
    ensures var r', ts' := Remove(r, k), ts + [Cut(r, k, sign)];
            && sign * Area(points, r') + SignedAreas(points, ts') == Area(points, Polygon(|points|))
            && if left > 1 then Partial(|points|, r', ts', ds + [(r[Pred(|r|, k)], r[Succ(|r|, k)])])
               else Triangulates(|points|, ts', ds)
  {
    hide Partial, Triangulates, Area, SignedAreas;
    CutArea(points, r, ts, k, sign);
    if left > 1 {
      CutStep(|points|, r, ts, ds, k, sign);
    } else {
      LastCut(|points|, r, ts, ds, k, sign);
    }
  }

  // ------------------------------------------------- what holds between calls

  /** Node `y` is in the ring and its corner is reflex. */
  ghost predicate ReflexIn(points: seq<Point>, clockwise: Clockwise, r: seq<nat>, y: nat) {
    && (forall i :: 0 <= i < |r| ==> r[i] < |points|)
    && exists j :: 0 <= j < |r| && r[j] == y && IsReflex(points, clockwise, r, j)
  }

  /** Node `y` is so in all of the rings. */
  ghost predicate ReflexInAll(points: seq<Point>, clockwise: Clockwise, rings: seq<seq<nat>>, y: nat) {
    forall m :: 0 <= m < |rings| ==> ReflexIn(points, clockwise, rings[m], y)
  }

  /** The corner at position `k` turns clockwise, and its triangle holds no other node that is
      reflex and has been so in all of the rings `since`; node `last` is not looked at. */
  ghost predicate EarAt(points: seq<Point>, clockwise: Clockwise, containsPoint: ContainsPoint, r: seq<nat>, k: nat,
      last: nat, since: seq<seq<nat>>)
    requires k < |r| && forall i :: 0 <= i < |r| ==> r[i] < |points|
  {
    var a, b, c := r[Pred(|r|, k)], r[k], r[Succ(|r|, k)];
    && clockwise(points[a], points[b], points[c])
    && forall i :: 0 <= i < |r| && IsReflex(points, clockwise, r, i) && r[i] != last && r[i] != a && r[i] != c ==>
         ReflexInAll(points, clockwise, since, r[i]) ==>
         !containsPoint(points[a], points[b], points[c], points[r[i]])
  }

  /** No node of the ring but perhaps the last is an ear. */
  ghost predicate NoEarAt(points: seq<Point>, clockwise: Clockwise, containsPoint: ContainsPoint, r: seq<nat>,
      last: nat) {
    && (forall i :: 0 <= i < |r| ==> r[i] < |points|)
    && forall k :: 0 <= k < |r| && r[k] != last ==> !EarAt(points, clockwise, containsPoint, r, k, last, [])
  }

  /** The type of the node at position `j` is right, as far as turning goes. */
  predicate TurnsRight(points: seq<Point>, clockwise: Clockwise, r: seq<nat>, types: seq<NodeType>, last: nat, j: nat)
    requires |types| == |points| && j < |r| && forall i :: 0 <= i < |r| ==> r[i] < |points|
  {
    && (types[r[j]] == Ear ==> !IsReflex(points, clockwise, r, j))
    && (r[j] != last ==> (types[r[j]] == Reflex <==> IsReflex(points, clockwise, r, j)))
  }

  /** The triangle at position `j` holds no node of the span that has been reflex all the time. */
  ghost predicate Spared(points: seq<Point>, clockwise: Clockwise, containsPoint: ContainsPoint, span: seq<nat>,
      r: seq<nat>, last: nat, since: seq<seq<nat>>, j: nat)
    requires j < |r| && forall i :: 0 <= i < |r| ==> r[i] < |points|
  {
    var a, b, c := r[Pred(|r|, j)], r[j], r[Succ(|r|, j)];
    forall y :: y in span && y < |points| && y != last && y != a && y != b && y != c ==>
      ReflexInAll(points, clockwise, since, y) ==> !containsPoint(points[a], points[b], points[c], points[y])
  }

  ghost predicate Right(points: seq<Point>, clockwise: Clockwise, containsPoint: ContainsPoint, span: seq<nat>,
      r: seq<nat>, types: seq<NodeType>, last: nat, since: seq<seq<nat>>, j: nat)
    requires |types| == |points| && j < |r| && forall i :: 0 <= i < |r| ==> r[i] < |points|
  {
    && TurnsRight(points, clockwise, r, types, last, j)
    && (types[r[j]] == Ear ==> Spared(points, clockwise, containsPoint, span, r, last, since, j))
  }

  /** What types and span are worth between two calls. `last` is the node that the build passes left
      out, `since` the rings that were cut since then, and `open` holds the nodes whose neighbours
      changed and whose types are not settled yet. */
  ghost predicate Settled(points: seq<Point>, clockwise: Clockwise, containsPoint: ContainsPoint, span: seq<nat>,
      r: seq<nat>, types: seq<NodeType>, last: nat, since: seq<seq<nat>>, open: set<nat>)
  {
    && |types| == |points| && (forall i :: 0 <= i < |r| ==> r[i] < |points|)
    && (forall j :: 0 <= j < |r| && r[j] !in open ==>
          Right(points, clockwise, containsPoint, span, r, types, last, since, j))
    && (forall j :: 0 <= j < |r| && r[j] != last && types[r[j]] == Reflex ==> r[j] in span)
    && forall y :: y in open && y < |types| && y != last && types[y] != Reflex ==>
         !ReflexInAll(points, clockwise, since, y)
  }

  /** The span holds exactly the reflex nodes that the build passes visit. */
  ghost predicate ReflexSpan(points: seq<Point>, clockwise: Clockwise, span: seq<nat>, r: seq<nat>) {
    && (forall i :: 0 <= i < |r| ==> r[i] < |points|)
    && (forall j :: 0 <= j < |r| - 1 && IsReflex(points, clockwise, r, j) ==> r[j] in span)
    && forall y :: y in span ==> exists j :: 0 <= j < |r| - 1 && r[j] == y && IsReflex(points, clockwise, r, j)
  }

  lemma SpanBuilt(points: seq<Point>, clockwise: Clockwise, span: seq<nat>, r: seq<nat>, types0: seq<NodeType>)
    requires Distinct(r) && r != [] && |types0| == |points| && forall i :: 0 <= i < |r| ==> r[i] < |points|
    requires forall j :: 0 <= j < |r| - 1 ==> types0[r[j]] != Reflex
    requires ReflexesBuilt(span, ReflexTypes(points, clockwise, r, types0, |r| - 1), r[..|r| - 1])
    ensures ReflexSpan(points, clockwise, span, r)
  {
    hide IsReflex, ReflexTypes;
    var types := ReflexTypes(points, clockwise, r, types0, |r| - 1);
    forall j | 0 <= j < |r| - 1
      ensures IsReflex(points, clockwise, r, j) <==> r[j] in span
    {
      ReflexTypesAt(points, clockwise, r, types0, |r| - 1, j);
      assert r[..|r| - 1][j] == r[j];
    }
    forall y | y in span ensures exists j :: 0 <= j < |r| - 1 && r[j] == y && IsReflex(points, clockwise, r, j) {
      var i :| 0 <= i < |span| && span[i] == y;
      var j :| 0 <= j < |r| - 1 && r[..|r| - 1][j] == y;
      assert r[j] == y;
    }
  }

  /** So it is after the build passes. */
  lemma BuiltSettled(points: seq<Point>, clockwise: Clockwise, containsPoint: ContainsPoint, span: seq<nat>,
      r: seq<nat>, types: seq<NodeType>)
    requires Distinct(r) && r != [] && Typed(points, clockwise, containsPoint, span, r, types)
    requires types[r[|r| - 1]] != Ear && ReflexSpan(points, clockwise, span, r)
    ensures Settled(points, clockwise, containsPoint, span, r, types, r[|r| - 1], [], {})
  {
    hide IsReflex, IsTip, ReflexInAll, ReflexSpan, Distinct, Spared;
    forall j | 0 <= j < |r| - 1
      ensures Right(points, clockwise, containsPoint, span, r, types, r[|r| - 1], [], j)
      ensures types[r[j]] == Reflex ==> r[j] in span
    {
      if types[r[j]] == Ear {
        TipSpares(points, clockwise, containsPoint, span, r, r[|r| - 1], [], j);
      }
      SpanHas(points, clockwise, span, r, j);
    }
  }

  lemma PassesDone(points: seq<Point>, clockwise: Clockwise, containsPoint: ContainsPoint, span: seq<nat>,
      r: seq<nat>, types0: seq<NodeType>, types1: seq<NodeType>, types: seq<NodeType>)
    requires Distinct(r) && r != [] && (forall i :: 0 <= i < |r| ==> r[i] < |points|)
    requires |types0| == |points| == |types| && forall j :: 0 <= j < |r| - 1 ==> types0[r[j]] == Convex
    requires types1 == ReflexTypes(points, clockwise, r, types0, |r| - 1) && types1[r[|r| - 1]] != Ear
    requires EarsSoFar(points, containsPoint, span, r, types1, types, |r| - 1)
    requires ReflexSpan(points, clockwise, span, r)
    ensures Typed(points, clockwise, containsPoint, span, r, types) && types[r[|r| - 1]] != Ear
    ensures Settled(points, clockwise, containsPoint, span, r, types, r[|r| - 1], [], {})
  {
    hide EarsSoFar, ReflexTypes, ReflexSpan, Settled, Typed, Distinct;
    LastUntouched(points, containsPoint, span, r, types1, types);
    BothPasses(points, clockwise, containsPoint, span, r, types0, types);
    BuiltSettled(points, clockwise, containsPoint, span, r, types);
  }

  lemma SpanHas(points: seq<Point>, clockwise: Clockwise, span: seq<nat>, r: seq<nat>, j: nat)
    requires ReflexSpan(points, clockwise, span, r) && j < |r| - 1
    ensures r[j] < |points| && (IsReflex(points, clockwise, r, j) ==> r[j] in span)
  {
  }

  lemma TipSpares(points: seq<Point>, clockwise: Clockwise, containsPoint: ContainsPoint, span: seq<nat>,
      r: seq<nat>, last: nat, since: seq<seq<nat>>, j: nat)
    requires j < |r| && (forall i :: 0 <= i < |r| ==> r[i] < |points|) && IsTip(points, containsPoint, span, r, j)
    ensures Spared(points, clockwise, containsPoint, span, r, last, since, j)
  {
    hide ReflexInAll;
    var a, b, c := r[Pred(|r|, j)], r[j], r[Succ(|r|, j)];
    forall y | y in span && y < |points| && y != a && y != b && y != c
      ensures !containsPoint(points[a], points[b], points[c], points[y])
    {
      var k :| 0 <= k < |span| && span[k] == y;
      assert Tip(points, containsPoint, span, a, b, c);
    }
  }

  /** A node typed Ear is one. */
  lemma TypedEar(points: seq<Point>, clockwise: Clockwise, containsPoint: ContainsPoint, span: seq<nat>,
      r: seq<nat>, types: seq<NodeType>, last: nat, since: seq<seq<nat>>, k: nat)
    requires Settled(points, clockwise, containsPoint, span, r, types, last, since, {})
    requires k < |r| && r[k] < |types| && types[r[k]] == Ear
    ensures r[k] < |points| && EarAt(points, clockwise, containsPoint, r, k, last, since)
  {
    hide ReflexInAll;
    assert Right(points, clockwise, containsPoint, span, r, types, last, since, k);
    forall i | 0 <= i < |r| && IsReflex(points, clockwise, r, i) && r[i] != last
      ensures r[i] in span
      ensures r[i] != r[k]
    {
      assert Right(points, clockwise, containsPoint, span, r, types, last, since, i);
    }
  }

  /** Just built, the nodes that are not typed Ear are none. */
  lemma TypedNoEar(points: seq<Point>, clockwise: Clockwise, containsPoint: ContainsPoint, span: seq<nat>,
      r: seq<nat>, types: seq<NodeType>)
    requires Distinct(r) && r != [] && Typed(points, clockwise, containsPoint, span, r, types)
    requires ReflexSpan(points, clockwise, span, r) && !EarLeft(types, r)
    ensures NoEarAt(points, clockwise, containsPoint, r, r[|r| - 1])
  {
    hide ReflexSpan, EarAt, KindOf, Distinct;
    var last := r[|r| - 1];
    forall k | 0 <= k < |r| && r[k] != last ensures !EarAt(points, clockwise, containsPoint, r, k, last, []) {
      assert r[k] in r && types[r[k]] != Ear;
      KindNoEar(points, clockwise, containsPoint, span, r, k);
    }
  }

  lemma KindNoEar(points: seq<Point>, clockwise: Clockwise, containsPoint: ContainsPoint, span: seq<nat>,
      r: seq<nat>, k: nat)
    requires Distinct(r) && k < |r| - 1 && ReflexSpan(points, clockwise, span, r)
    requires KindOf(points, clockwise, containsPoint, span, r, k) != Ear
    ensures !EarAt(points, clockwise, containsPoint, r, k, r[|r| - 1], [])
  {
    hide IsTip;
    if !IsReflex(points, clockwise, r, k) {
      Inside(points, clockwise, containsPoint, span, r, k);
    }
  }

  lemma Inside(points: seq<Point>, clockwise: Clockwise, containsPoint: ContainsPoint, span: seq<nat>,
      r: seq<nat>, k: nat)
    requires Distinct(r) && k < |r| - 1 && ReflexSpan(points, clockwise, span, r)
    requires !IsTip(points, containsPoint, span, r, k)
    ensures !EarAt(points, clockwise, containsPoint, r, k, r[|r| - 1], [])
  {
    hide IsReflex;
    var a, b, c := r[Pred(|r|, k)], r[k], r[Succ(|r|, k)];
    var i :| 0 <= i < |span| && span[i] < |points| && span[i] != a && span[i] != b && span[i] != c
      && containsPoint(points[a], points[b], points[c], points[span[i]]);
    assert span[i] in span;
    var j :| 0 <= j < |r| - 1 && r[j] == span[i] && IsReflex(points, clockwise, r, j);
    assert ReflexInAll(points, clockwise, [], r[j]);
  }

  /** Away from a node that was taken out of the ring, the corners stay what they were. */
  lemma SameCorner(r: seq<nat>, k: nat, i: nat) returns (j: nat)
    requires Distinct(r) && |r| >= 3 && k < |r| && i < |r| - 1
    ensures j < |r| && j != k && r[j] == Remove(r, k)[i]
    ensures Remove(r, k)[i] != r[Pred(|r|, k)] && Remove(r, k)[i] != r[Succ(|r|, k)] ==>
              && Remove(r, k)[Pred(|r| - 1, i)] == r[Pred(|r|, j)]
              && Remove(r, k)[Succ(|r| - 1, i)] == r[Succ(|r|, j)]
  {
    j := if i < k then i else i + 1;
  }

  /** After a node is taken out of the ring, only its neighbours are left to settle. */
  lemma UnlinkSettled(points: seq<Point>, clockwise: Clockwise, containsPoint: ContainsPoint, span: seq<nat>,
      r: seq<nat>, types: seq<NodeType>, last: nat, since: seq<seq<nat>>, k: nat)
    requires Settled(points, clockwise, containsPoint, span, r, types, last, since, {})
    requires Distinct(r) && |r| >= 3 && k < |r|
    ensures Settled(points, clockwise, containsPoint, span, Remove(r, k), types, last, since + [r],
        {r[Pred(|r|, k)], r[Succ(|r|, k)]})
  {
    hide ReflexInAll, Distinct, Right, Remove;
    var r', since', open := Remove(r, k), since + [r], {r[Pred(|r|, k)], r[Succ(|r|, k)]};
    assert |r'| == |r| - 1 by { RemoveLess(r, k); }
    forall i | 0 <= i < |r'| ensures r'[i] < |points| {
      var j := SameCorner(r, k, i);
    }
    forall i | 0 <= i < |r'|
      ensures r'[i] !in open ==> Right(points, clockwise, containsPoint, span, r', types, last, since', i)
      ensures r'[i] != last && types[r'[i]] == Reflex ==> r'[i] in span
    {
      var j := SameCorner(r, k, i);
      if r'[i] !in open {
        SameRight(points, clockwise, containsPoint, span, r, types, last, since, k, j, i);
      }
    }
    forall y | y in open && y != last && types[y] != Reflex ensures !ReflexInAll(points, clockwise, since', y) {
      var j := if y == r[Pred(|r|, k)] then Pred(|r|, k) else Succ(|r|, k);
      RightTurns(points, clockwise, containsPoint, span, r, types, last, since, j);
      NotInAll(points, clockwise, since, r, j);
    }
  }

  lemma RemoveLess(r: seq<nat>, k: nat)
    requires k < |r|
    ensures |Remove(r, k)| == |r| - 1
  {
  }

  lemma RightTurns(points: seq<Point>, clockwise: Clockwise, containsPoint: ContainsPoint, span: seq<nat>,
      r: seq<nat>, types: seq<NodeType>, last: nat, since: seq<seq<nat>>, j: nat)
    requires |types| == |points| && j < |r| && (forall i :: 0 <= i < |r| ==> r[i] < |points|)
    requires Right(points, clockwise, containsPoint, span, r, types, last, since, j)
    ensures TurnsRight(points, clockwise, r, types, last, j)
  {
  }

  lemma SameRight(points: seq<Point>, clockwise: Clockwise, containsPoint: ContainsPoint, span: seq<nat>,
      r: seq<nat>, types: seq<NodeType>, last: nat, since: seq<seq<nat>>, k: nat, j: nat, i: nat)
    requires Distinct(r) && |r| >= 3 && k < |r| && j < |r| && i < |r| - 1
    requires |Remove(r, k)| == |r| - 1 && Remove(r, k)[i] == r[j]
    requires Remove(r, k)[Pred(|r| - 1, i)] == r[Pred(|r|, j)] && Remove(r, k)[Succ(|r| - 1, i)] == r[Succ(|r|, j)]
    requires |types| == |points| && (forall i :: 0 <= i < |r| ==> r[i] < |points|)
    requires forall i :: 0 <= i < |r| - 1 ==> Remove(r, k)[i] < |points|
    requires Right(points, clockwise, containsPoint, span, r, types, last, since, j)
    ensures Right(points, clockwise, containsPoint, span, Remove(r, k), types, last, since + [r], i)
  {
    hide ReflexInAll, Distinct, Remove;
    FewerInMore(points, clockwise, since, r);
  }

  lemma FewerInMore(points: seq<Point>, clockwise: Clockwise, since: seq<seq<nat>>, r: seq<nat>)
    ensures forall y :: ReflexInAll(points, clockwise, since + [r], y) ==> ReflexInAll(points, clockwise, since, y)
  {
    forall y | ReflexInAll(points, clockwise, since + [r], y) ensures ReflexInAll(points, clockwise, since, y) {
      assert forall m :: 0 <= m < |since| ==> (since + [r])[m] == since[m];
    }
  }

  lemma NotInAll(points: seq<Point>, clockwise: Clockwise, since: seq<seq<nat>>, r: seq<nat>, j: nat)
    requires Distinct(r) && j < |r| && (forall i :: 0 <= i < |r| ==> r[i] < |points|)
    requires !IsReflex(points, clockwise, r, j)
    ensures !ReflexInAll(points, clockwise, since + [r], r[j])
  {
    assert (since + [r])[|since|] == r;
    assert !ReflexIn(points, clockwise, r, r[j]);
  }

  /** Giving an open node the type its corner calls for settles it. */
  lemma ReclassifySettled(points: seq<Point>, clockwise: Clockwise, containsPoint: ContainsPoint, span: seq<nat>,
      r: seq<nat>, types: seq<NodeType>, last: nat, since: seq<seq<nat>>, open: set<nat>, k: nat, span': seq<nat>)
    requires Settled(points, clockwise, containsPoint, span, r, types, last, since, open)
    requires Distinct(r) && k < |r| && r[k] in open
    requires var kind := KindOf(points, clockwise, containsPoint, span, r, k);
             && (forall y :: y != r[k] ==> (y in span' <==> y in span))
             && (kind == Reflex ==> r[k] in span' || (types[r[k]] == Reflex && r[k] !in span))
             && (r[k] in span' ==> kind == Reflex)
    ensures Settled(points, clockwise, containsPoint, span', r,
        types[r[k] := KindOf(points, clockwise, containsPoint, span, r, k)], last, since, open - {r[k]})
  {
    hide ReflexInAll, IsReflex, IsTip;
    var x, kind := r[k], KindOf(points, clockwise, containsPoint, span, r, k);
    var types' := types[x := kind];
    assert forall j :: 0 <= j < |r| && j != k ==> r[j] != x && types'[r[j]] == types[r[j]];
    forall j | 0 <= j < |r| && r[j] !in open - {x}
      ensures Right(points, clockwise, containsPoint, span', r, types', last, since, j)
    {
      if j != k {
        assert Right(points, clockwise, containsPoint, span, r, types, last, since, j);
        assert TurnsRight(points, clockwise, r, types', last, j);
      } else {
        assert TurnsRight(points, clockwise, r, types', last, j);
        if types'[x] == Ear {
          TipSpares(points, clockwise, containsPoint, span, r, last, since, j);
        }
      }
    }
  }

  /** The two spans differ at most in corners of the triangle, which are not looked at. */
  lemma KindSame(points: seq<Point>, clockwise: Clockwise, containsPoint: ContainsPoint, span: seq<nat>,
      span': seq<nat>, r: seq<nat>, k: nat)
    requires k < |r| && forall i :: 0 <= i < |r| ==> r[i] < |points|
    requires forall y :: y != r[Pred(|r|, k)] && y != r[k] && y != r[Succ(|r|, k)] ==> (y in span <==> y in span')
    ensures KindOf(points, clockwise, containsPoint, span, r, k) ==
            KindOf(points, clockwise, containsPoint, span', r, k)
  {
    hide IsReflex;
    if IsTip(points, containsPoint, span, r, k) {
      TipSame(points, containsPoint, span, span', r[Pred(|r|, k)], r[k], r[Succ(|r|, k)]);
    } else if IsTip(points, containsPoint, span', r, k) {
      TipSame(points, containsPoint, span', span, r[Pred(|r|, k)], r[k], r[Succ(|r|, k)]);
    }
  }

  lemma TipSame(points: seq<Point>, containsPoint: ContainsPoint, span: seq<nat>, span': seq<nat>, a: nat, b: nat,
      c: nat)
    requires a < |points| && b < |points| && c < |points| && Tip(points, containsPoint, span, a, b, c)
    requires forall y :: y != a && y != b && y != c && y in span' ==> y in span
    ensures Tip(points, containsPoint, span', a, b, c)
  {
    forall k | 0 <= k < |span'| && span'[k] < |points| && span'[k] != a && span'[k] != b && span'[k] != c
      ensures !containsPoint(points[a], points[b], points[c], points[span'[k]])
    {
      assert span'[k] in span;
      var i :| 0 <= i < |span| && span[i] == span'[k];
    }
  }

  lemma OnlyReflexes(span: seq<nat>, types: seq<NodeType>)
    requires ReflexesAre(span, types)
    ensures forall x :: x in span ==> x < |types| && types[x] == Reflex
  {
  }

  /** A node's span is in order after Retype. */
  lemma Respanning(span: seq<nat>, types: seq<NodeType>, x: nat, kind: NodeType)
    requires ReflexesAre(span, types) && x < |types| && types[x] != kind
    ensures var s := Respanned(span, types[x] == Reflex, kind == Reflex, x);
            && (forall y :: y != x ==> (y in s <==> y in span)) && (x in s <==> kind == Reflex)
  {
    ErasedItems(span, x);
    if x in span {
      var i :| 0 <= i < |span| && span[i] == x;
    }
  }

  /** A cut: the ring it is made in and the position cut off, the ears there were before it, and the
      node left out by the last build passes and the rings cut since then. */
  datatype Cutting = Cutting(ring: seq<nat>, at: nat, span: seq<nat>, last: nat, since: seq<seq<nat>>)

  /** With no ears on the span the ring has been flipped and its nodes visited anew. */
  ghost predicate Follows(cut: Cutting, ring: seq<nat>, last: nat, since: seq<seq<nat>>) {
    if cut.span == [] then
      cut.ring == Reversed(ring) && ring != [] && cut.last == ring[0] && cut.since == []
    else
      cut.ring == ring && cut.last == last && cut.since == since
  }

  /** What is cut off is an ear, unless the ring was just flipped and has none; then it is the first
      node. */
  ghost predicate Chosen(points: seq<Point>, clockwise: Clockwise, containsPoint: ContainsPoint, cut: Cutting) {
    && cut.at < |cut.ring| && (forall i :: 0 <= i < |cut.ring| ==> cut.ring[i] < |points|)
    && if cut.span == [] && NoEarAt(points, clockwise, containsPoint, cut.ring, cut.last)
       then cut.ring[cut.at] == cut.ring[0]
       else EarAt(points, clockwise, containsPoint, cut.ring, cut.at, cut.last, cut.since)
  }

  class Triangulator {
    const points: seq<Point>
    const clockwise: Clockwise
    const containsPoint: ContainsPoint
    const next: array<nat>
    const prev: array<nat>
    const types: array<NodeType>
    const ears: Span
    const reflexes: Span
    var trianglesLeft: nat
    var nodes: nat
    ghost var ring: seq<nat>
    ghost var emitted: seq<Triangle>
    ghost var diagonals: seq<(nat, nat)>
    ghost var sign: int
    ghost var flips: nat             // how often the ring was flipped
    ghost var last: nat              // the node that the last build passes left out
    ghost var since: seq<seq<nat>>   // the rings that were cut since then

    /** The storage laid out by Init: fixed, and not shared. */
    ghost predicate Shape() {
      var n := |points|;
      && next.Length == prev.Length == types.Length == ears.data.Length == reflexes.data.Length == n >= 3
      && next != prev && ears.data != next && ears.data != prev
      && reflexes.data != next && reflexes.data != prev && reflexes.data != ears.data
      && ears != reflexes
    }

    /** Init: storage for the nodes and both spans, then the three build passes. */
    constructor (points: seq<Point>, clockwise: Clockwise, containsPoint: ContainsPoint)
      requires |points| >= 3
      ensures Valid() && fresh({next, prev, types, ears, ears.data, reflexes, reflexes.data})
      ensures this.points == points && this.clockwise == clockwise && this.containsPoint == containsPoint
      ensures trianglesLeft == |points| - 2 && emitted == [] && diagonals == [] && ring == Polygon(|points|)
        && flips == 0 && last == |points| - 1 && since == []
      ensures Typed(points, clockwise, containsPoint, reflexes.Items(), ring, types[..])
    {
      this.points, this.clockwise, this.containsPoint := points, clockwise, containsPoint;
      next, prev, types := new nat[|points|], new nat[|points|], new NodeType[|points|];
      ears := new Span(|points|);
      reflexes := new Span(|points|);
      trianglesLeft, nodes := |points| - 2, 0;
      ring, emitted, diagonals, sign, flips := Polygon(|points|), [], [], 1, 0;
      last, since := |points| - 1, [];
      new;
      Start();
    }

    /** The build passes over fresh storage. */
    method Start()
      requires Shape() && trianglesLeft == |points| - 2 && nodes == 0 && ring == Polygon(|points|)
      requires ears.size == 0 && reflexes.size == 0 && emitted == [] && diagonals == [] && sign == 1 && flips == 0
      requires last == |points| - 1 && since == []
      modifies next, prev, types, ears, ears.data, reflexes, reflexes.data
      ensures Valid() && Typed(points, clockwise, containsPoint, reflexes.Items(), ring, types[..])
    {
      hide Partial, Area, SignedAreas, ReflexesAre, EarsAre, Linked, ReflexTypes, ReflexesBuilt, EarsSoFar, Typed;
      hide Settled, ReflexSpan;
      BuildNodes();
      AllConvex(types[..], reflexes.Items());
      BuildTypes();
      PartialStart(|points|);
      StartArea(points);
    }

    method BuildNodes()
      requires Shape()
      modifies next, prev, types
      ensures Linked(next[..], prev[..], Polygon(|points|))
      ensures forall x :: 0 <= x < |points| ==> types[x] == Convex
    {
      var n := |points|;
      for i := 0 to n
        invariant forall x :: 0 <= x < i ==> types[x] == Convex && next[x] == x + 1 && (x > 0 ==> prev[x] == x - 1)
      {
        types[i] := Convex;
        next[i] := i + 1;
        prev[i] := if i == 0 then 0 else i - 1;
      }
      prev[0] := n - 1;
      next[n - 1] := 0;
    }

    /** Visits all nodes of the ring but the last. */
    method BuildReflexes()
      requires Rung() && reflexes.size == 0 && |ring| == trianglesLeft + 2
      requires forall j :: 0 <= j < |ring| - 1 ==> types[ring[j]] != Reflex
      modifies types, reflexes, reflexes.data
      ensures Rung()
      ensures types[..] == ReflexTypes(points, clockwise, ring, old(types[..]), |ring| - 1)
      ensures ReflexesBuilt(reflexes.Items(), types[..], ring[..|ring| - 1])
      ensures ReflexSpan(points, clockwise, reflexes.Items(), ring)
      ensures forall x :: 0 <= x < |points| ==> types[x] == old(types[x]) || types[x] == Reflex
    {
      hide ReflexTypes, ReflexesAre, ReflexesBuilt, IsReflex, ReflexSpan;
      RingSize(next[..], prev[..], ring);
      ghost var types0: seq<NodeType> := types[..];
      var n1 := nodes;
      var i: int := trianglesLeft;
      BuildReflexStart(points, clockwise, ring, types0);
      while i >= 0
        invariant -1 <= i <= trianglesLeft && n1 == ring[trianglesLeft - i]
        invariant reflexes.size <= trianglesLeft - i
          && ReflexesBuilt(reflexes.Items(), types[..], ring[..trianglesLeft - i])
        invariant types[..] == ReflexTypes(points, clockwise, ring, types0, trianglesLeft - i)
        decreases i
      {
        ghost var was: seq<NodeType> := types[..];
        BuildReflexStep(points, clockwise, reflexes.Items(), types0, ring, trianglesLeft - i);
        if !clockwise(points[prev[n1]], points[n1], points[next[n1]]) {
          types[n1] := Reflex;
          reflexes.PushBack(n1);
          assert types[..] == was[n1 := Reflex];
        }
        n1 := next[n1];
        i := i - 1;
      }
      BuildReflexEnd(reflexes.Items(), types[..], ring[..|ring| - 1]);
      SpanBuilt(points, clockwise, reflexes.Items(), ring, types0);
      ReflexTypesOnly(points, clockwise, ring, types0, |ring| - 1);
    }

    /** The ring and the spans, whichever point of a call they are at. */
    ghost predicate Rung()
      reads this, next, prev, types, ears, ears.data, reflexes, reflexes.data
    {
      && Shape()
      && Linked(next[..], prev[..], ring) && nodes == ring[0]
      && ears.size <= |points| && reflexes.size <= |points|
      && ReflexesAre(reflexes.Items(), types[..])
    }

    /** What has been cut off so far, and the area it accounts for. */
    ghost predicate Progress()
      reads this
    {
      && sign == Sign(flips)
      && |ring| == trianglesLeft + 2
      && (if trianglesLeft > 0 then Partial(|points|, ring, emitted, diagonals)
          else Triangulates(|points|, emitted, diagonals))
      && sign * Area(points, ring) + SignedAreas(points, emitted) == Area(points, Polygon(|points|))
    }

    ghost predicate Valid()
      reads this, next, prev, types, ears, ears.data, reflexes, reflexes.data
    {
      Rung() && Progress() && EarsAre(ears.Items(), types[..], ring, -1) && Sorted({})
    }

    /** Types and span of reflex nodes are in order, except for the nodes in `open`. */
    ghost predicate Sorted(open: set<nat>)
      requires reflexes.size <= reflexes.data.Length
      reads this, types, reflexes, reflexes.data
    {
      Settled(points, clockwise, containsPoint, reflexes.Items(), ring, types[..], last, since, open)
    }

    /** No reflex node other than the corners lies in the triangle. */
    method IsEar(i0: nat, i1: nat, i2: nat) returns (ear: bool)
      requires Shape() && i0 < |points| && i1 < |points| && i2 < |points|
      requires reflexes.size <= |points| && ReflexesAre(reflexes.Items(), types[..])
      ensures ear <==> Tip(points, containsPoint, reflexes.Items(), i0, i1, i2)
    {
      for p := 0 to reflexes.size
        invariant forall k :: 0 <= k < p ==>
                    var r := reflexes.Items()[k];
                    r < |points| && r != i0 && r != i1 && r != i2 ==>
                      !containsPoint(points[i0], points[i1], points[i2], points[r])
      {
        var reflex := reflexes.data[p];
        assert reflex == reflexes.Items()[p];
        if reflex != i0 && reflex != i1 && reflex != i2 {
          if containsPoint(points[i0], points[i1], points[i2], points[reflex]) {
            return false;
          }
        }
      }
      return true;
    }

    /** Reverses the ring in place; it then starts at the node before the old first one. */
    method FlipNodeList()
      requires Shape() && Linked(next[..], prev[..], ring) && nodes == ring[0]
      modifies next, prev, this`nodes, this`ring
      ensures ring == Reversed(old(ring))
      ensures Linked(next[..], prev[..], ring) && nodes == ring[0]
    {
      hide Flipped, Linked, Distinct;
      ghost var r, m := ring, |ring|;
      FlipStart(next[..], prev[..], r);
      var last, current := nodes, next[nodes];
      next[last] := last;
      prev[last] := last;
      ghost var p := 0;
      assert next[..] == old(next[..])[r[0] := r[0]] && prev[..] == old(prev[..])[r[0] := r[0]];
      while current != nodes
        invariant 0 <= p < m && last == r[p] && current == r[Succ(m, p)] && nodes == r[0]
        invariant Flipped(next[..], prev[..], r, p)
        decreases m - p
      {
        ghost var next0: seq<nat>, prev0: seq<nat> := next[..], prev[..];
        FlipStep(next0, prev0, r, p);
        var temp := next[current];
        next[current] := last;
        prev[last] := current;
        next[nodes] := current;
        prev[current] := nodes;
        assert next[..] == next0[current := last][nodes := current];
        assert prev[..] == prev0[last := current][current := nodes];
        last := current;
        current := temp;
        p := p + 1;
      }
      FlipDone(next[..], prev[..], r, p);
      FlipEnd(next[..], prev[..], r);
      nodes := last;
      ring := Reversed(r);
    }

    /** Types the ears among the visited convex nodes: all nodes of the ring but the last. */
    method BuildEars()
      requires Rung() && ears.size == 0 && |ring| == trianglesLeft + 2
      requires forall j :: 0 <= j < |ring| ==> types[ring[j]] != Ear
      modifies types, ears, ears.data
      ensures Rung() && EarsAre(ears.Items(), types[..], ring, -1)
      ensures EarsSoFar(points, containsPoint, reflexes.Items(), ring, old(types[..]), types[..], |ring| - 1)
    {
      hide EarsAre, ReflexesAre, Erased, LastIndex, EarsSoFar, Tip;
      NoEarsYet(types[..], ring);
      RingNodes(next[..], prev[..], ring);
      ghost var span, types0 := reflexes.Items(), types[..];
      EarsSoFarStart(points, containsPoint, span, ring, types[..]);
      var n1 := nodes;
      var i: int := trianglesLeft;
      while i >= 0
        invariant -1 <= i <= trianglesLeft && n1 == ring[trianglesLeft - i]
        invariant Rung() && EarsAre(ears.Items(), types[..], ring, -1)
        invariant EarsSoFar(points, containsPoint, span, ring, types0, types[..], trianglesLeft - i)
        decreases i
      {
        EarsSoFarStep(points, containsPoint, span, ring, types0, types[..], trianglesLeft - i);
        if types[n1] == Convex {
          var ear := IsEar(prev[n1], n1, next[n1]);
          if ear {
            AddEar(n1);
          }
        }
        n1 := next[n1];
        i := i - 1;
      }
    }

    /** Both passes over a ring whose nodes but the last are convex. */
    method BuildTypes()
      requires Rung() && ears.size == 0 && reflexes.size == 0 && |ring| == trianglesLeft + 2
      requires forall j :: 0 <= j < |ring| - 1 ==> types[ring[j]] == Convex
      requires types[ring[|ring| - 1]] != Ear
      modifies types, ears, ears.data, reflexes, reflexes.data
      ensures Rung() && EarsAre(ears.Items(), types[..], ring, -1)
      ensures Typed(points, clockwise, containsPoint, reflexes.Items(), ring, types[..])
      ensures ReflexSpan(points, clockwise, reflexes.Items(), ring) && types[ring[|ring| - 1]] != Ear
      ensures Settled(points, clockwise, containsPoint, reflexes.Items(), ring, types[..], ring[|ring| - 1], [], {})
    {
      hide EarsAre, ReflexesAre, ReflexTypes, ReflexesBuilt, EarsSoFar, Typed, ReflexSpan, Settled, Linked, KindOf;
      RingNodes(next[..], prev[..], ring);
      ghost var types0 := types[..];
      BuildReflexes();
      ghost var types1 := types[..];
      BuildEars();
      PassesDone(points, clockwise, containsPoint, reflexes.Items(), ring, types0, types1, types[..]);
    }

    method AddEar(n1: nat)
      requires Rung() && EarsAre(ears.Items(), types[..], ring, -1) && n1 in ring && n1 < |points|
        && types[n1] == Convex
      modifies types, ears, ears.data
      ensures Rung() && EarsAre(ears.Items(), types[..], ring, -1)
      ensures types[..] == old(types[..])[n1 := Ear]
    {
      hide EarsAre, ReflexesAre, Erased, LastIndex, Linked;
      ghost var was: seq<NodeType> := types[..];
      Respan(ears.Items(), reflexes.Items(), was, ring, n1, Ear);
      types[n1] := Ear;
      ears.PushBack(n1);
      assert types[..] == was[n1 := Ear];
    }

    /** The type a node should have, given its neighbours. */
    method Classify(n1: nat, ghost k: nat) returns (kind: NodeType)
      requires Rung() && k < |ring| && n1 == ring[k]
      ensures kind == KindOf(points, clockwise, containsPoint, reflexes.Items(), ring, k)
    {
      hide ReflexesAre, LastIndex, Tip;
      var n0, n2 := prev[n1], next[n1];
      if !clockwise(points[n0], points[n1], points[n2]) {
        kind := Reflex;
      } else {
        var ear := IsEar(n0, n1, n2);
        kind := if ear then Ear else Convex;
      }
    }

    /** Settles the type of a node whose neighbours changed, and moves it between the spans. */
    method ReclassifyNode(n1: nat, ghost k: nat, ghost open: set<nat>)
      requires Rung() && EarsAre(ears.Items(), types[..], ring, -1) && k < |ring| && n1 == ring[k]
      requires n1 in open && Sorted(open)
      modifies types, ears, ears.data, reflexes, reflexes.data
      ensures Rung() && EarsAre(ears.Items(), types[..], ring, -1)
      ensures types[..] ==
          old(types[..])[n1 := KindOf(points, clockwise, containsPoint, old(reflexes.Items()), ring, k)]
      ensures forall y :: y != n1 ==> (y in reflexes.Items() <==> y in old(reflexes.Items()))
      ensures Sorted(open - {n1})
    {
      hide KindOf, Settled, EarsAre, ReflexesAre, Linked;
      ghost var types0, span := types[..], reflexes.Items();
      var kind := Classify(n1, k);
      RingNodes(next[..], prev[..], ring);
      Retype(n1, kind);
      ReclassifySettled(points, clockwise, containsPoint, span, ring, types0, last, since, open, k, reflexes.Items());
    }

    /** Gives a node of the ring its new type and moves it between the spans. */
    method Retype(n1: nat, kind: NodeType)
      requires Rung() && EarsAre(ears.Items(), types[..], ring, -1) && n1 in ring && n1 < |points|
      modifies types, ears, ears.data, reflexes, reflexes.data
      ensures Rung() && EarsAre(ears.Items(), types[..], ring, -1)
      ensures types[..] == old(types[..])[n1 := kind]
      ensures forall y :: y != n1 ==> (y in reflexes.Items() <==> y in old(reflexes.Items()))
      ensures if kind == old(types[n1]) then n1 in reflexes.Items() <==> n1 in old(reflexes.Items())
              else n1 in reflexes.Items() <==> kind == Reflex
      ensures n1 in reflexes.Items() ==> kind == Reflex
    {
      hide EarsAre, ReflexesAre, Linked, LastIndex, Erased;
      if kind == types[n1] {
        OnlyReflexes(reflexes.Items(), types[..]);
        return;
      }
      ghost var types0 := types[..];
      Respanning(reflexes.Items(), types0, n1, kind);
      Respan(ears.Items(), reflexes.Items(), types0, ring, n1, kind);
      if types[n1] == Reflex {
        reflexes.FindEraseUnsorted(n1);
      } else if types[n1] == Ear {
        ears.FindEraseUnsorted(n1);
      }
      if kind == Reflex {
        reflexes.PushBack(n1);
      } else if kind == Ear {
        ears.PushBack(n1);
      }
      types[n1] := kind;
      assert types[..] == types0[n1 := kind];
    }

    /** Makes every node of the ring but the last convex. */
    method ResetTypes()
      requires Rung() && |ring| == trianglesLeft + 2 && reflexes.size == 0
      requires forall j :: 0 <= j < |ring| ==> types[ring[j]] != Ear
      modifies types
      ensures Rung()
      ensures forall j :: 0 <= j < |ring| - 1 ==> types[ring[j]] == Convex
      ensures types[ring[|ring| - 1]] == old(types[ring[|ring| - 1]])
    {
      var node := nodes;
      var i: int := trianglesLeft;
      while i >= 0
        invariant -1 <= i <= trianglesLeft && node == ring[trianglesLeft - i]
        invariant forall j :: 0 <= j < trianglesLeft - i ==> types[ring[j]] == Convex
        invariant types[ring[|ring| - 1]] == old(types[ring[|ring| - 1]])
        decreases i
      {
        types[node] := Convex;
        node := next[node];
        i := i - 1;
      }
    }

    /** The span's last entry is a node of the ring, and the entries before it are the other ears. */
    ghost predicate Armed()
      reads this, types, ears, ears.data
    {
      && Shape() && 0 < ears.size <= |points|
      && ears.Items()[ears.size - 1] in ring
      && EarsAre(ears.Items()[..ears.size - 1], types[..], ring, ears.Items()[ears.size - 1])
    }

    /** Out of ears: the ring is flipped and rebuilt, and if that does not help its first node
        is taken for an ear. */
    method FindEars()
      requires Valid() && ears.size == 0 && trianglesLeft > 0
      modifies this`nodes, this`ring, this`sign, this`flips, this`last, this`since
      modifies next, prev, types, ears, ears.data, reflexes, reflexes.data
      ensures Rung() && Progress() && Armed() && Sorted({})
      ensures last == ring[|ring| - 1] && since == []
      ensures NoEarAt(points, clockwise, containsPoint, ring, last) <==> !EarLeft(types[..], ring)
      ensures if EarLeft(types[..], ring) then types[ears.Items()[ears.size - 1]] == Ear else ears.Items() == [ring[0]]
      ensures ring == Reversed(old(ring)) && flips == old(flips) + 1
      ensures Typed(points, clockwise, containsPoint, reflexes.Items(), ring, types[..])
    {
      hide EarsAre, ReflexesAre, Linked, Partial, Triangulates, Area, SignedAreas, Typed, EarLeft, Settled, NoEarAt;
      Rebuild();
      EarLeftExactly(ears.Items(), types[..], ring);
      if ears.size == 0 {
        EarsNone(types[..], ring, nodes);
        assert ears.Items() == [];
        ears.data[0] := nodes;
        ears.size := 1;
        assert ears.Items()[..0] == [];
      } else {
        EarsPop(ears.Items(), types[..], ring);
      }
    }

    method Rebuild()
      requires Valid() && ears.size == 0 && trianglesLeft > 0
      modifies this`nodes, this`ring, this`sign, this`flips, this`last, this`since
      modifies next, prev, types, ears, ears.data, reflexes, reflexes.data
      ensures Valid() && last == ring[|ring| - 1] && since == []
      ensures NoEarAt(points, clockwise, containsPoint, ring, last) <==> !EarLeft(types[..], ring)
      ensures ring == Reversed(old(ring)) && flips == old(flips) + 1
      ensures Typed(points, clockwise, containsPoint, reflexes.Items(), ring, types[..])
    {
      hide EarsAre, ReflexesAre, Linked, Partial, Triangulates, Area, SignedAreas, ReflexTypes, ReflexesBuilt;
      hide EarsSoFar, Typed, Settled, ReflexSpan, NoEarAt, EarLeft, Sign;
      TurnRound();
      BuildTypes();
      last, since := ring[|ring| - 1], [];
      FreshEars();
    }

    /** Flips the ring and makes all its nodes but the last convex. */
    method TurnRound()
      requires Valid() && ears.size == 0 && trianglesLeft > 0
      modifies this`nodes, this`ring, this`sign, this`flips, next, prev, types, reflexes
      ensures Rung() && Progress() && reflexes.size == 0 && |ring| == trianglesLeft + 2
      ensures forall j :: 0 <= j < |ring| ==> types[ring[j]] != Ear
      ensures forall j :: 0 <= j < |ring| - 1 ==> types[ring[j]] == Convex
      ensures ring == Reversed(old(ring)) && flips == old(flips) + 1
    {
      hide EarsAre, ReflexesAre, Linked, Partial, Triangulates, Area, SignedAreas, Sign, Settled;
      FlipProgress();
      NextSign(flips);
      NoEars(ears.Items(), types[..], ring) by { RingNodes(next[..], prev[..], ring); }
      FlipNodeList();
      sign, flips := -sign, flips + 1;
      reflexes.size := 0;
      AllConvex(types[..], reflexes.Items());
      RingNodes(next[..], prev[..], ring);
      ResetTypes();
    }

    /** Just after a build, there is an ear exactly if some node is typed one. */
    lemma FreshEars()
      requires Rung() && Typed(points, clockwise, containsPoint, reflexes.Items(), ring, types[..])
      requires ReflexSpan(points, clockwise, reflexes.Items(), ring) && since == [] && last == ring[|ring| - 1]
      requires Sorted({}) && types[last] != Ear
      ensures NoEarAt(points, clockwise, containsPoint, ring, last) <==> !EarLeft(types[..], ring)
    {
      hide EarAt, Typed, ReflexSpan, Settled, ReflexesAre;
      if EarLeft(types[..], ring) {
        var x :| 0 <= x < |types[..]| && x in ring && types[..][x] == Ear;
        var k :| 0 <= k < |ring| && ring[k] == x;
        TypedEar(points, clockwise, containsPoint, reflexes.Items(), ring, types[..], last, [], k);
      } else {
        TypedNoEar(points, clockwise, containsPoint, reflexes.Items(), ring, types[..]);
      }
    }

    lemma FlipProgress()
      requires Progress() && trianglesLeft > 0
      ensures Partial(|points|, Reversed(ring), emitted, diagonals)
      ensures -sign * Area(points, Reversed(ring)) == sign * Area(points, ring)
    {
      hide Partial, Triangulates, Area, SignedAreas;
      FlipPartial(|points|, ring, emitted, diagonals);
      FlipArea(points, ring);
      assert -sign * -Area(points, ring) == sign * Area(points, ring);
    }

    /** Cuts the next triangle off the polygon and returns its corners. */
    method GetNextTriangle() returns (a: nat, b: nat, c: nat, ghost cut: Cutting)
      requires Valid() && trianglesLeft > 0
      modifies this, next, prev, types, ears, ears.data, reflexes, reflexes.data
      ensures Valid() && trianglesLeft == old(trianglesLeft) - 1
      ensures emitted == old(emitted) + [Triangle(a, b, c, Sign(flips))]
      ensures flips == if old(ears.size) == 0 then old(flips) + 1 else old(flips)
      ensures old(ears.size) > 0 ==> b == old(ears.Items())[old(ears.size) - 1]
      ensures cut.span == old(ears.Items()) && Follows(cut, old(ring), old(last), old(since))
      ensures Chosen(points, clockwise, containsPoint, cut) && CutsOff(cut, (a, b, c))
      ensures ring == Remove(cut.ring, cut.at) && last == cut.last && since == cut.since + [cut.ring]
      ensures KindsAt(a, c, cut.at)
    {
      hide EarsAre, ReflexesAre, Linked, Partial, Triangulates, Area, SignedAreas, Settled, Chosen;
      ghost var span := ears.Items();
      Arm();
      ghost var ring0, last0, since0 := ring, last, since;
      PickedChosen(span);
      ghost var k;
      a, b, c, k := Clip();
      cut := Cutting(ring0, k, span, last0, since0);
    }

    /** The span's last entry is the first node if the ring was just flipped and has no ear, and
        otherwise typed Ear. */
    ghost predicate Picked(span: seq<nat>)
      requires Shape() && 0 < ears.size <= |points|
      reads this, types, ears, ears.data
    {
      var tip := ears.Items()[ears.size - 1];
      && ring != [] && tip < |points|
      && if span == [] && NoEarAt(points, clockwise, containsPoint, ring, last) then tip == ring[0]
         else types[tip] == Ear
    }

    lemma PickedChosen(span: seq<nat>)
      requires Rung() && Armed() && Sorted({}) && Picked(span)
      ensures forall k: nat :: k < |ring| && ring[k] == ears.Items()[ears.size - 1] ==>
                Chosen(points, clockwise, containsPoint, Cutting(ring, k, span, last, since))
    {
      hide EarsAre, ReflexesAre, Linked, Settled, NoEarAt, EarAt;
      RingNodes(next[..], prev[..], ring);
      forall k: nat | k < |ring| && ring[k] == ears.Items()[ears.size - 1]
        ensures Chosen(points, clockwise, containsPoint, Cutting(ring, k, span, last, since))
      {
        if types[ring[k]] == Ear {
          TypedEar(points, clockwise, containsPoint, reflexes.Items(), ring, types[..], last, since, k);
        }
      }
    }

    /** Sees to it that there is an ear to cut, or a node to cut instead. */
    method Arm()
      requires Valid() && trianglesLeft > 0
      modifies this`nodes, this`ring, this`sign, this`flips, this`last, this`since
      modifies next, prev, types, ears, ears.data, reflexes, reflexes.data
      ensures Rung() && Progress() && Armed() && Sorted({}) && Picked(old(ears.Items()))
      ensures flips == if old(ears.size) == 0 then old(flips) + 1 else old(flips)
      ensures old(ears.size) > 0 ==>
                ears.Items() == old(ears.Items()) && ring == old(ring) && last == old(last) && since == old(since)
      ensures old(ears.size) == 0 ==> ring == Reversed(old(ring)) && last == ring[|ring| - 1] && since == []
    {
      hide EarsAre, ReflexesAre, Linked, Partial, Triangulates, Area, SignedAreas, Settled, NoEarAt, EarLeft, Typed;
      if ears.size == 0 {
        FindEars();
        RingNodes(next[..], prev[..], ring);
      } else {
        EarsPop(ears.Items(), types[..], ring);
        EarLeftExactly(ears.Items(), types[..], ring);
      }
    }

    /** The neighbours of the node cut off at position `k` have the types their corners call for. */
    ghost predicate KindsAt(a: nat, c: nat, k: nat)
      requires Rung() && k <= |ring|
      reads this, next, prev, types, ears, ears.data, reflexes, reflexes.data
    {
      var i, j := if k == 0 then |ring| - 1 else k - 1, if k == |ring| then 0 else k;
      && ring[i] == a && types[a] == KindOf(points, clockwise, containsPoint, reflexes.Items(), ring, i)
      && ring[j] == c && types[c] == KindOf(points, clockwise, containsPoint, reflexes.Items(), ring, j)
    }

    /** Takes the last ear off the span, out of the ring, and settles its neighbours. */
    method Clip() returns (a: nat, b: nat, c: nat, ghost k: nat)
      requires Rung() && Progress() && Armed() && Sorted({}) && trianglesLeft > 0
      modifies this`since, this`nodes, this`ring, this`trianglesLeft, this`emitted, this`diagonals
      modifies next, prev, types, ears, ears.data, reflexes, reflexes.data
      ensures Valid() && trianglesLeft == old(trianglesLeft) - 1
      ensures emitted == old(emitted) + [Triangle(a, b, c, sign)] && b == old(ears.Items())[old(ears.size) - 1]
      ensures k < |old(ring)| && ring == Remove(old(ring), k) && Triangle(a, b, c, sign) == Cut(old(ring), k, sign)
      ensures since == old(since) + [old(ring)] && KindsAt(a, c, k)
    {
      hide EarsAre, ReflexesAre, Linked, Partial, Triangulates, Area, SignedAreas, Settled, KindOf;
      a, b, c, k := ClipNode();
      CutProgress(points, old(ring), trianglesLeft, emitted, diagonals, sign, k);
      emitted := emitted + [Triangle(a, b, c, sign)];
      diagonals := if trianglesLeft > 1 then diagonals + [(a, c)] else diagonals;
      trianglesLeft := trianglesLeft - 1;
    }

    method ClipNode() returns (a: nat, b: nat, c: nat, ghost k: nat)
      requires Rung() && Armed() && Sorted({}) && |ring| >= 3
      modifies this`since, this`nodes, this`ring, next, prev, types, ears, ears.data, reflexes, reflexes.data
      ensures Rung() && EarsAre(ears.Items(), types[..], ring, -1)
      ensures k < |old(ring)| && ring == Remove(old(ring), k) && Triangle(a, b, c, sign) == Cut(old(ring), k, sign)
      ensures b == old(ears.Items())[old(ears.size) - 1]
      ensures since == old(since) + [old(ring)] && Sorted({}) && KindsAt(a, c, k)
    {
      hide EarsAre, ReflexesAre, Linked, KindOf, Settled;
      var ear := ears.Pop();
      k :| 0 <= k < |ring| && ring[k] == ear;
      RingNodes(next[..], prev[..], ring);
      UnlinkSettled(points, clockwise, containsPoint, reflexes.Items(), ring, types[..], last, since, k);
      a, b, c := Unlink(ear, k);
      since := since + [old(ring)];
      CutSpots(old(ring), k);
      SettleNeighbours(a, c, k);
    }

    /** Reclassifies both neighbours of the node that was cut off at position `k`. */
    method SettleNeighbours(a: nat, c: nat, ghost k: nat)
      requires Rung() && EarsAre(ears.Items(), types[..], ring, -1) && k <= |ring| && Sorted({a, c})
      requires ring[if k == 0 then |ring| - 1 else k - 1] == a && ring[if k == |ring| then 0 else k] == c
      modifies types, ears, ears.data, reflexes, reflexes.data
      ensures Rung() && EarsAre(ears.Items(), types[..], ring, -1)
      ensures Sorted({}) && KindsAt(a, c, k)
    {
      hide EarsAre, ReflexesAre, Linked, KindOf, Settled;
      ghost var i, j, span := if k == 0 then |ring| - 1 else k - 1, if k == |ring| then 0 else k, reflexes.Items();
      RingNodes(next[..], prev[..], ring);
      ReclassifyNode(a, i, {a, c});
      assert {a, c} - {a} == {c} && {c} - {c} == {};
      ghost var span1 := reflexes.Items();
      ReclassifyNode(c, j, {c});
      KindSame(points, clockwise, containsPoint, span, reflexes.Items(), ring, i);
      KindSame(points, clockwise, containsPoint, span1, reflexes.Items(), ring, j);
    }

    /** Takes position `k` out of the ring. */
    method Unlink(ear: nat, ghost k: nat) returns (a: nat, b: nat, c: nat)
      requires Rung() && |ring| >= 3 && k < |ring| && ear == ring[k] && EarsAre(ears.Items(), types[..], ring, ear)
      modifies this`nodes, this`ring, next, prev
      ensures Rung() && ring == Remove(old(ring), k) && EarsAre(ears.Items(), types[..], ring, -1)
      ensures Triangle(a, b, c, sign) == Cut(old(ring), k, sign)
    {
      UnlinkRing(next[..], prev[..], ring, k);
      EarsUnlink(ears.Items(), types[..], ring, k);
      RingNodes(next[..], prev[..], ring);
      NeighboursApart(ring, k);
      hide EarsAre, ReflexesAre, Linked, Distinct;
      a, b, c := prev[ear], ear, next[ear];
      ghost var next0: seq<nat>, prev0: seq<nat> := next[..], prev[..];
      prev[next[ear]] := prev[ear];
      next[prev[ear]] := next[ear];
      assert next[..] == next0[a := c] && prev[..] == prev0[c := a];
      if ear == nodes {
        nodes := next[ear];
      }
      ring := Remove(ring, k);
    }
  }

  /** A count that starts at 0 or 1 and grows by 0 or 1. */
  ghost predicate Counting(flips: seq<nat>) {
    && (flips != [] ==> flips[0] <= 1)
    && forall k :: 0 < k < |flips| ==> flips[k - 1] <= flips[k] <= flips[k - 1] + 1
  }

  /** The triangles, each with the sign that the number of flips before its cut calls for. */
  function WithSigns(triangles: seq<(nat, nat, nat)>, flips: seq<nat>): seq<Triangle>
    requires |triangles| == |flips|
  {
    seq(|triangles|,
        k requires 0 <= k < |triangles| => Triangle(triangles[k].0, triangles[k].1, triangles[k].2, Sign(flips[k])))
  }

  /** `triangles` triangulate the polygon: n - 2 of them over the polygon's own points; every side of
      the polygon lies in exactly one, every other edge in none or in two, and the areas, each
      negated if the ring had been flipped an odd number of times, add up to the polygon's. */
  ghost predicate SignedBy(points: seq<Point>, triangles: seq<(nat, nat, nat)>, flips: seq<nat>) {
    && |triangles| == |flips| == |points| - 2 && Counting(flips)
    && var signed := WithSigns(triangles, flips);
    && (forall t :: t in signed ==> t.a < |points| && t.b < |points| && t.c < |points| && Distinct([t.a, t.b, t.c]))
    && (forall x: nat, y: nat :: x != y ==>
          if Adjacent(Polygon(|points|), x, y) then TriangleCount(signed, x, y) == 1
          else TriangleCount(signed, x, y) == 0 || TriangleCount(signed, x, y) == 2)
    && SignedAreas(points, signed) == Area(points, Polygon(|points|))
  }

  /** What a cut goes by: with ears on the span it takes the last of them, and without any the ring is
      flipped first. */
  predicate CutBy(tip: nat, before: nat, after: nat, span: seq<nat>) {
    if |span| == 0 then after == before + 1 else after == before && tip == span[|span| - 1]
  }

  function Before(flips: seq<nat>, k: nat): nat
    requires k <= |flips|
  {
    if k == 0 then 0 else flips[k - 1]
  }

  ghost predicate Clipped(triangles: seq<(nat, nat, nat)>, flips: seq<nat>, cuts: seq<Cutting>) {
    && |triangles| == |flips| == |cuts|
    && forall k :: 0 <= k < |triangles| ==> CutBy(triangles[k].1, Before(flips, k), flips[k], cuts[k].span)
  }

  lemma ClippedMore(triangles: seq<(nat, nat, nat)>, flips: seq<nat>, cuts: seq<Cutting>, t: (nat, nat, nat),
      n: nat, cut: Cutting)
    requires Clipped(triangles, flips, cuts) && CutBy(t.1, Before(flips, |flips|), n, cut.span)
    ensures Clipped(triangles + [t], flips + [n], cuts + [cut])
  {
    hide CutBy;
    var ts, fs, cs := triangles + [t], flips + [n], cuts + [cut];
    forall k | 0 <= k < |ts| ensures CutBy(ts[k].1, Before(fs, k), fs[k], cs[k].span) {
      assert Before(fs, k) == Before(flips, k);
      assert k < |flips| ==> fs[k] == flips[k] && cs[k] == cuts[k] && ts[k] == triangles[k];
      assert k == |flips| ==> fs[k] == n && cs[k] == cut && ts[k] == t;
    }
  }

  /** The corners of what a cut takes off. */
  predicate CutsOff(cut: Cutting, t: (nat, nat, nat)) {
    && cut.at < |cut.ring|
    && var m, r := |cut.ring|, cut.ring;
       t == (r[Pred(m, cut.at)], r[cut.at], r[Succ(m, cut.at)])
  }

  /** Where the cuts lead: to this ring, with this node left out last, and these rings cut since. */
  ghost predicate Leads(n: nat, cuts: seq<Cutting>, ring: seq<nat>, last: nat, since: seq<seq<nat>>) {
    if cuts == [] then
      n > 0 && ring == Polygon(n) && last == n - 1 && since == []
    else
      var cut := cuts[|cuts| - 1];
      && cut.at < |cut.ring| && ring == Remove(cut.ring, cut.at)
      && last == cut.last && since == cut.since + [cut.ring]
  }

  /** Cut `k` is made in the ring that the cuts before it leave, and cuts an ear off if there is one. */
  ghost predicate CarvedAt(points: seq<Point>, clockwise: Clockwise, containsPoint: ContainsPoint,
      triangles: seq<(nat, nat, nat)>, cuts: seq<Cutting>, k: nat)
    requires k < |triangles| && k < |cuts|
  {
    && CutsOff(cuts[k], triangles[k]) && Chosen(points, clockwise, containsPoint, cuts[k])
    && exists ring, last, since :: Leads(|points|, cuts[..k], ring, last, since)
         && Follows(cuts[k], ring, last, since)
  }

  /** All triangles are cut off like this, one after another. */
  ghost predicate Carved(points: seq<Point>, clockwise: Clockwise, containsPoint: ContainsPoint,
      triangles: seq<(nat, nat, nat)>, cuts: seq<Cutting>)
  {
    && |triangles| == |cuts|
    && forall k :: 0 <= k < |cuts| ==> CarvedAt(points, clockwise, containsPoint, triangles, cuts, k)
  }

  lemma CarvedMore(points: seq<Point>, clockwise: Clockwise, containsPoint: ContainsPoint,
      triangles: seq<(nat, nat, nat)>, cuts: seq<Cutting>, t: (nat, nat, nat), cut: Cutting, ring: seq<nat>,
      last: nat, since: seq<seq<nat>>)
    requires Carved(points, clockwise, containsPoint, triangles, cuts) && Leads(|points|, cuts, ring, last, since)
    requires Follows(cut, ring, last, since) && Chosen(points, clockwise, containsPoint, cut) && CutsOff(cut, t)
    ensures Carved(points, clockwise, containsPoint, triangles + [t], cuts + [cut])
    ensures Leads(|points|, cuts + [cut], Remove(cut.ring, cut.at), cut.last, cut.since + [cut.ring])
  {
    hide Chosen, Follows, Leads, CutsOff;
    var ts, cs := triangles + [t], cuts + [cut];
    forall k | 0 <= k < |cs| ensures CarvedAt(points, clockwise, containsPoint, ts, cs, k) {
      if k < |cuts| {
        assert CarvedAt(points, clockwise, containsPoint, triangles, cuts, k);
        assert cs[..k] == cuts[..k];
      } else {
        assert cs[..k] == cuts;
      }
    }
    LeadsOn(|points|, cs, cut, t);
  }

  lemma LeadsOn(n: nat, cuts: seq<Cutting>, cut: Cutting, t: (nat, nat, nat))
    requires cuts != [] && cuts[|cuts| - 1] == cut && CutsOff(cut, t)
    ensures Leads(n, cuts, Remove(cut.ring, cut.at), cut.last, cut.since + [cut.ring])
  {
  }

  /** Every triangle turns clockwise, except those cut from a ring that has no ear. */
  ghost predicate Turning(points: seq<Point>, clockwise: Clockwise, containsPoint: ContainsPoint,
      triangles: seq<(nat, nat, nat)>, cuts: seq<Cutting>)
  {
    && |triangles| == |cuts|
    && forall k :: 0 <= k < |triangles| ==>
         var (a, b, c) := triangles[k];
         && a < |points| && b < |points| && c < |points|
         && (clockwise(points[a], points[b], points[c])
             || (cuts[k].span == [] && NoEarAt(points, clockwise, containsPoint, cuts[k].ring, cuts[k].last)))
  }

  lemma CarvedTurns(points: seq<Point>, clockwise: Clockwise, containsPoint: ContainsPoint,
      triangles: seq<(nat, nat, nat)>, cuts: seq<Cutting>)
    requires Carved(points, clockwise, containsPoint, triangles, cuts)
    ensures Turning(points, clockwise, containsPoint, triangles, cuts)
  {
    hide NoEarAt, Leads, Follows, ReflexInAll;
    forall k | 0 <= k < |triangles|
      ensures var (a, b, c) := triangles[k];
              && a < |points| && b < |points| && c < |points|
              && (clockwise(points[a], points[b], points[c])
                  || (cuts[k].span == [] && NoEarAt(points, clockwise, containsPoint, cuts[k].ring, cuts[k].last)))
    {
      assert CarvedAt(points, clockwise, containsPoint, triangles, cuts, k);
    }
  }

  /** What the fill loop does: a triangulation by cutting off ears. */
  ghost predicate EarClipping(points: seq<Point>, clockwise: Clockwise, containsPoint: ContainsPoint,
      triangles: seq<(nat, nat, nat)>, flips: seq<nat>, cuts: seq<Cutting>)
  {
    && SignedBy(points, triangles, flips) && Clipped(triangles, flips, cuts)
    && Carved(points, clockwise, containsPoint, triangles, cuts)
    && Turning(points, clockwise, containsPoint, triangles, cuts)
  }

  lemma CutSigned(triangles: seq<(nat, nat, nat)>, flips: seq<nat>, t: (nat, nat, nat), n: nat)
    requires |triangles| == |flips| && Counting(flips)
      && (if flips == [] then 0 else flips[|flips| - 1]) <= n <= (if flips == [] then 0 else flips[|flips| - 1]) + 1
    ensures Counting(flips + [n])
    ensures WithSigns(triangles + [t], flips + [n]) == WithSigns(triangles, flips) + [Triangle(t.0, t.1, t.2, Sign(n))]
  {
    hide Sign;
    var more := flips + [n];
    forall k | 0 < k < |more| ensures more[k - 1] <= more[k] <= more[k - 1] + 1 {
      assert more[k - 1] == flips[k - 1];
    }
  }

  /** The fill loop over a whole polygon; `flips` counts how often the ring had been flipped before
      each cut, and `cuts` holds what it was made in. */
  method Triangulate(points: seq<Point>, clockwise: Clockwise, containsPoint: ContainsPoint)
      returns (triangles: seq<(nat, nat, nat)>, ghost flips: seq<nat>, ghost cuts: seq<Cutting>)
    requires |points| >= 3
    ensures |triangles| == |points| - 2
    ensures EarClipping(points, clockwise, containsPoint, triangles, flips, cuts)
  {
    hide EarsAre, ReflexesAre, Linked, Partial, Triangulates, Area, SignedAreas, Sign, Counting, WithSigns, Typed;
    hide Clipped, Carved, Turning, Settled, Leads, Follows, Chosen, Triangulator.KindsAt;
    var t := new Triangulator(points, clockwise, containsPoint);
    triangles, flips, cuts := [], [], [];
    NoneSigned(triangles, flips);
    NoneCut(points, clockwise, containsPoint, triangles, flips, cuts);
    while t.trianglesLeft > 0
      invariant fresh(t) && fresh({t.next, t.prev, t.types, t.ears, t.ears.data, t.reflexes, t.reflexes.data})
      invariant t.Valid() && |triangles| == |flips| == |points| - 2 - t.trianglesLeft
      invariant t.points == points && t.clockwise == clockwise && t.containsPoint == containsPoint
      invariant Clipped(triangles, flips, cuts) && Carved(points, clockwise, containsPoint, triangles, cuts)
      invariant Leads(|points|, cuts, t.ring, t.last, t.since)
      invariant Counting(flips) && t.emitted == WithSigns(triangles, flips) && t.flips == Before(flips, |flips|)
      decreases t.trianglesLeft
    {
      ghost var ring, last, since := t.ring, t.last, t.since;
      assert t.ears.size <= t.ears.data.Length by { EarsFit(t); }
      var a, b, c, cut := t.GetNextTriangle();
      CutSigned(triangles, flips, (a, b, c), t.flips);
      ClippedMore(triangles, flips, cuts, (a, b, c), t.flips, cut);
      CarvedMore(points, clockwise, containsPoint, triangles, cuts, (a, b, c), cut, ring, last, since);
      triangles, flips, cuts := triangles + [(a, b, c)], flips + [t.flips], cuts + [cut];
    }
    Finished(points, t.ring, t.emitted, t.diagonals, t.sign);
    AllOverPoints(points, t.emitted, t.diagonals);
    assert SignedBy(points, triangles, flips);
    CarvedTurns(points, clockwise, containsPoint, triangles, cuts);
  }

  lemma EarsFit(t: Triangulator)
    requires t.Valid()
    ensures t.ears.size <= t.ears.data.Length
  {
  }

  lemma NoneCut(points: seq<Point>, clockwise: Clockwise, containsPoint: ContainsPoint,
      triangles: seq<(nat, nat, nat)>, flips: seq<nat>, cuts: seq<Cutting>)
    requires |triangles| == |flips| == |cuts| == 0 < |points|
    ensures Clipped(triangles, flips, cuts) && Carved(points, clockwise, containsPoint, triangles, cuts)
    ensures Leads(|points|, cuts, Polygon(|points|), |points| - 1, [])
  {
  }

  lemma NoneSigned(triangles: seq<(nat, nat, nat)>, flips: seq<nat>)
    requires triangles == [] && flips == []
    ensures Counting(flips) && WithSigns(triangles, flips) == []
  {
  }

  lemma AllOverPoints(points: seq<Point>, ts: seq<Triangle>, ds: seq<(nat, nat)>)
    requires Triangulates(|points|, ts, ds)
    ensures forall t :: t in ts ==> t.a < |points| && t.b < |points| && t.c < |points| && Distinct([t.a, t.b, t.c])
  {
  }

  lemma Finished(points: seq<Point>, r: seq<nat>, ts: seq<Triangle>, ds: seq<(nat, nat)>, sign: int)
    requires |r| == 2 && Triangulates(|points|, ts, ds)
    requires sign * Area(points, r) + SignedAreas(points, ts) == Area(points, Polygon(|points|))
    ensures SignedAreas(points, ts) == Area(points, Polygon(|points|))
    ensures forall x: nat, y: nat :: x != y ==>
              if Adjacent(Polygon(|points|), x, y) then TriangleCount(ts, x, y) == 1
              else TriangleCount(ts, x, y) == 0 || TriangleCount(ts, x, y) == 2
  {
    TwoNodesNoArea(points, r);
  }
}
