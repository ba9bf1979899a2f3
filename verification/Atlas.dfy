/** The font atlas: rectangles packed into a texture that grows by being repacked. */
module Atlases {
  import opened Options
  import opened Textures
  import opened AtlasRects
  import opened AtlasPacking
  import opened AtlasContents

  // ------------------------------------------------------------------- blocks

  /** The pixels of a rectangle, row by row. */
  ghost function Block(t: TextureData, r: Rect): (rows: seq<seq<nat>>)
    requires t.Shape() && Inside(r, t.width, t.height)
    reads t.pixels
    ensures |rows| == r.h && forall dy :: 0 <= dy < r.h ==> |rows[dy]| == r.w
    ensures forall dx, dy :: 0 <= dx < r.w && 0 <= dy < r.h ==> rows[dy][dx] == t.pixels[r.x + dx, r.y + dy]
  {
    seq(r.h, dy requires 0 <= dy < r.h reads t.pixels =>
      seq(r.w, dx requires 0 <= dx < r.w reads t.pixels => t.pixels[r.x + dx, r.y + dy]))
  }

  /** Copies a block from one texture to another, row by row. */
  method BlockCopy(src: TextureData, sx: nat, sy: nat, dst: TextureData, dx: nat, dy: nat, w: nat, h: nat)
    requires src.Shape() && dst.Shape() && src.pixels != dst.pixels
    requires Inside(Rect(sx, sy, w, h), src.width, src.height) && Inside(Rect(dx, dy, w, h), dst.width, dst.height)
    modifies dst.pixels
    ensures Block(dst, Rect(dx, dy, w, h)) == Block(src, Rect(sx, sy, w, h))
    ensures forall x, y :: 0 <= x < dst.width && 0 <= y < dst.height && !Covers(Rect(dx, dy, w, h), x, y) ==>
              dst.pixels[x, y] == old(dst.pixels[x, y])
    ensures forall r: Rect :: Inside(r, dst.width, dst.height) && Disjoint(r, Rect(dx, dy, w, h)) ==>
              Block(dst, r) == old(Block(dst, r))
  {
    for y := 0 to h
      invariant forall i, j :: dx <= i < dx + w && dy <= j < dy + y ==>
          dst.pixels[i, j] == src.pixels[i - dx + sx, j - dy + sy]
      invariant forall i, j :: 0 <= i < dst.width && 0 <= j < dst.height && !Covers(Rect(dx, dy, w, h), i, j) ==>
                  dst.pixels[i, j] == old(dst.pixels[i, j])
    {
      var row, from := dy + y, sy + y;
      forall i | dx <= i < dx + w {
        dst.pixels[i, row] := src.pixels[i - dx + sx, from];
      }
    }
    ghost var a, b := Block(dst, Rect(dx, dy, w, h)), Block(src, Rect(sx, sy, w, h));
    forall j | 0 <= j < h ensures a[j] == b[j] {
      forall i | 0 <= i < w ensures a[j][i] == b[j][i] {
        assert dst.pixels[dx + i, dy + j] == src.pixels[dx + i - dx + sx, dy + j - dy + sy];
      }
    }
    forall r: Rect | Inside(r, dst.width, dst.height) && Disjoint(r, Rect(dx, dy, w, h))
      ensures Block(dst, r) == old(Block(dst, r))
    {
      ghost var now, before := Block(dst, r), old(Block(dst, r));
      forall j | 0 <= j < r.h ensures now[j] == before[j] {
        forall i | 0 <= i < r.w ensures now[j][i] == before[j][i] {
          assert !Covers(Rect(dx, dy, w, h), r.x + i, r.y + j);
        }
      }
    }
  }

  /** Fills a block; blocks apart from it are not affected. */
  method BlockFill(t: TextureData, r: Rect, colour: nat)
    requires t.Shape() && Inside(r, t.width, t.height)
    modifies t.pixels
    ensures Block(t, r) == Solid(r.w, r.h, colour)
    ensures forall q: Rect :: Inside(q, t.width, t.height) && Disjoint(q, r) ==> Block(t, q) == old(Block(t, q))
  {
    t.Fill(r, (x, y) => colour);
    ghost var a, b := Block(t, r), Solid(r.w, r.h, colour);
    forall j | 0 <= j < r.h ensures a[j] == b[j] {
      forall i | 0 <= i < r.w ensures a[j][i] == b[j][i] {
        assert Covers(r, r.x + i, r.y + j);
      }
    }
    forall q: Rect | Inside(q, t.width, t.height) && Disjoint(q, r) ensures Block(t, q) == old(Block(t, q)) {
      ghost var now, before := Block(t, q), old(Block(t, q));
      forall j | 0 <= j < q.h ensures now[j] == before[j] {
        forall i | 0 <= i < q.w ensures now[j][i] == before[j][i] {
          assert !Covers(r, q.x + i, q.y + j);
        }
      }
    }
  }

  // ------------------------------------------------------------------ repacking

  /** Live rectangles lie within a texture of this size. */
  ghost predicate InTexture(index: seq<Entry>, rects: seq<Rect>, width: nat, height: nat) {
    forall i :: 0 <= i < |index| && index[i].used ==>
        0 <= index[i].target < |rects| && Inside(rects[index[i].target], width, height)
  }

  /** The packer knows every rectangle that was not given up, with its padding. */
  ghost predicate LockStep(rects: seq<Rect>, boxes: seq<Rect>, pad: nat) {
    && |rects| == |boxes|
    && forall j :: 0 <= j < |rects| && rects[j].w > 0 ==>
        boxes[j] == Rect(rects[j].x, rects[j].y, rects[j].w + pad, rects[j].h + pad)
  }

  /** Repacking has dealt with the first `k` entries of `index0`: ids and generations are kept, the
      new rectangles come in the order of the index, and the rest is as it was. */
  ghost predicate Halfway(index0: seq<Entry>, index: seq<Entry>, rects: seq<Rect>, k: nat) {
    && |index| == |index0| && k <= |index|
    && (forall j :: 0 <= j < |index| ==> index[j].generation == index0[j].generation && index[j].used == index0[j].used)
    && (forall j :: 0 <= j < |index| && (j >= k || !index0[j].used) ==> index[j] == index0[j])
    && (forall j :: 0 <= j < k && index[j].used ==> 0 <= index[j].target < |rects|)
    && (forall i, j :: 0 <= i < j < k && index[i].used && index[j].used ==> index[i].target < index[j].target)
    && (forall t :: 0 <= t < |rects| ==> 0 < rects[t].w <= 0xFFFF && 0 < rects[t].h <= 0xFFFF)
  }

  /** The new table's sums over the entries dealt with. */
  ghost predicate Sums(index: seq<Entry>, rects: seq<Rect>, k: nat, count: nat, surface: int, pad: nat)
    requires k <= |index|
  {
    UsedCount(index[..k]) == |rects| == count && LiveArea(index[..k], rects, pad) == surface
  }

  /** The rectangles dealt with are where their boxes are. */
  ghost predicate Positions(places0: seq<Option<Rect>>, index: seq<Entry>, rects: seq<Rect>, boxes: seq<Rect>, k: nat)
    requires k <= |index| && k <= |places0|
  {
    PlacesOf(index[..k], rects) == Dealt(places0[..k], boxes)
  }

  lemma PositionsSkip(places0: seq<Option<Rect>>, index: seq<Entry>, rects: seq<Rect>, boxes: seq<Rect>, k: nat)
    requires k < |index| == |places0| && Positions(places0, index, rects, boxes, k) && !index[k].used
      && places0[k] == None
    ensures Positions(places0, index, rects, boxes, k + 1)
  {
    DealtNone(places0, boxes, k);
    assert PlacesOf(index[..k + 1], rects) == PlacesOf(index[..k], rects) + [None];
  }

  lemma PositionsStep(places0: seq<Option<Rect>>, index: seq<Entry>, rects: seq<Rect>, boxes: seq<Rect>, k: nat,
      r: Rect, box: Rect)
    requires k < |index| == |places0| && Positions(places0, index, rects, boxes, k)
    requires index[k].used && places0[k].Some? && r == Rect(box.x, box.y, places0[k].value.w, places0[k].value.h)
    requires forall j :: 0 <= j < k && index[j].used ==> 0 <= index[j].target < |rects|
    ensures Positions(places0, index[k := index[k].(target := |rects|)], rects + [r], boxes + [box], k + 1)
  {
    hide Dealt;
    DealtMore(places0, boxes, k, box);
    var index' := index[k := index[k].(target := |rects|)];
    assert PlacesOf(index'[..k + 1], rects + [r]) == PlacesOf(index[..k], rects) + [Some(r)];
  }

  lemma HalfwayStart(index0: seq<Entry>, places0: seq<Option<Rect>>, rects: seq<Rect>, boxes: seq<Rect>, pad: nat)
    requires rects == [] && boxes == []
    ensures Halfway(index0, index0, rects, 0) && Sums(index0, rects, 0, 0, 0, pad)
    ensures Positions(places0, index0, rects, boxes, 0) && BoxesArea(boxes) == 0
  {
  }

  lemma HalfwaySkip(index0: seq<Entry>, index: seq<Entry>, rects: seq<Rect>, k: nat, count: nat, surface: int, pad: nat)
    requires Halfway(index0, index, rects, k) && k < |index| && !index[k].used
    requires Sums(index, rects, k, count, surface, pad)
    ensures Halfway(index0, index, rects, k + 1) && Sums(index, rects, k + 1, count, surface, pad)
  {
    assert index[..k + 1][..k] == index[..k];
  }

  lemma HalfwayStep(index0: seq<Entry>, index: seq<Entry>, rects: seq<Rect>, k: nat, r: Rect)
    requires Halfway(index0, index, rects, k) && k < |index| && index[k].used
    requires 0 < r.w <= 0xFFFF && 0 < r.h <= 0xFFFF
    ensures Halfway(index0, index[k := index[k].(target := |rects|)], rects + [r], k + 1)
  {
  }

  lemma SumsStep(index: seq<Entry>, rects: seq<Rect>, k: nat, r: Rect, count: nat, surface: int, pad: nat)
    requires k < |index| && index[k].used && Sums(index, rects, k, count, surface, pad)
    requires forall j :: 0 <= j < k && index[j].used ==> 0 <= index[j].target < |rects|
    ensures Sums(index[k := index[k].(target := |rects|)], rects + [r], k + 1, count + 1,
        surface + (r.w + pad) * (r.h + pad), pad)
  {
    var index' := index[k := index[k].(target := |rects|)];
    assert index'[..k + 1][..k] == index[..k];
    LiveAreaSame(index[..k], index[..k], rects, rects + [r], pad);
  }

  lemma {:induction false} ChainSame(a: seq<Entry>, b: seq<Entry>, start: int, free: seq<nat>)
    requires |a| == |b| && forall j :: 0 <= j < |a| && !a[j].used ==> a[j] == b[j]
    requires Chain(a, start, free)
    ensures Chain(b, start, free)
    decreases |free|
  {
    if free != [] {
      ChainSame(a, b, a[start].target, free[1..]);
    }
  }

  /** Once every entry is dealt with, the new table is in order and the discards are gone. */
  lemma HalfwayEnd(index0: seq<Entry>, index: seq<Entry>, rects: seq<Rect>, start: int, free: seq<nat>,
      discards: seq<nat>)
    requires Halfway(index0, index, rects, |index|)
    requires FreeList(index0, start, free) && Generations(index0, discards)
    ensures FreeList(index, start, free) && Generations(index, discards) && Targets(index, rects)
  {
    ChainSame(index0, index, start, free);
    assert forall i, j :: 0 <= i < j < |index| && index[i].used && index[j].used ==> index[i].target < index[j].target;
  }

  lemma SumsEnd(index: seq<Entry>, rects: seq<Rect>, count: nat, surface: int, pad: nat)
    requires Sums(index, rects, |index|, count, surface, pad)
    ensures UsedCount(index) == |rects| == count && LiveArea(index, rects, pad) == surface
  {
    assert index[..|index|] == index;
  }

  lemma PositionsEnd(places0: seq<Option<Rect>>, index: seq<Entry>, rects: seq<Rect>, boxes: seq<Rect>)
    requires |index| == |places0| && Positions(places0, index, rects, boxes, |index|)
    ensures PlacesOf(index, rects) == Dealt(places0, boxes)
  {
    assert index[..|index|] == index && places0[..|places0|] == places0;
  }

  // -------------------------------------------------------------------- glyphs

  datatype Scale = Scale(u: real, v: real)

  predicate IdResolves(index: seq<Entry>, id: int) {
    id != INVALID && IndexOf(id) < |index| && index[IndexOf(id)].generation == GenerationOf(id)
        && index[IndexOf(id)].used
  }

  function Placement(g: Glyph, r: Rect, s: Scale): Glyph {
    g.(u0 := r.x as real * s.u, v0 := r.y as real * s.v, u1 := (r.x + r.w) as real * s.u,
        v1 := (r.y + r.h) as real * s.v)
  }

  /** Every glyph that has a rectangle shows exactly that rectangle. */
  ghost predicate GlyphsOk(glyphs: seq<Glyph>, index: seq<Entry>, rects: seq<Rect>, s: Scale) {
    forall k :: 0 <= k < |glyphs| && glyphs[k].packId != INVALID ==>
      var g := glyphs[k];
      && IdResolves(index, g.packId)
      && 0 <= index[IndexOf(g.packId)].target < |rects|
      && g == Placement(g, rects[index[IndexOf(g.packId)].target], s)
  }

  /** The id of every glyph leads somewhere. */
  ghost predicate GlyphIds(glyphs: seq<Glyph>, index: seq<Entry>) {
    forall k :: 0 <= k < |glyphs| && glyphs[k].packId != INVALID ==> IdResolves(index, glyphs[k].packId)
  }

  lemma GlyphStart(glyphs: seq<Glyph>, index: seq<Entry>, rects: seq<Rect>, s: Scale)
    requires |glyphs| == 0
    ensures GlyphsOk(glyphs, index, rects, s)
  {
  }

  lemma GlyphStep(glyphs: seq<Glyph>, index: seq<Entry>, rects: seq<Rect>, s: Scale, k: nat)
    requires k < |glyphs| && GlyphsOk(glyphs[..k], index, rects, s)
    requires (glyphs[k].packId != INVALID ==> IdResolves(index, glyphs[k].packId)) && Targets(index, rects)
    ensures glyphs[k].packId == INVALID ==> GlyphsOk(glyphs[..k + 1], index, rects, s)
    ensures glyphs[k].packId != INVALID ==>
              var i := IndexOf(glyphs[k].packId);
              && i < |index| && 0 <= index[i].target < |rects|
              && GlyphsOk(glyphs[k := Placement(glyphs[k], rects[index[i].target], s)][..k + 1], index, rects, s)
  {
    hide Placement;
    assert glyphs[..k + 1][..k] == glyphs[..k];
    if glyphs[k].packId != INVALID {
      var i := IndexOf(glyphs[k].packId);
      assert IdResolves(index, glyphs[k].packId);
      var g := Placement(glyphs[k], rects[index[i].target], s);
      PlacementTwice(glyphs[k], rects[index[i].target], s);
      var gs := glyphs[k := g][..k + 1];
      assert gs[..k] == glyphs[..k] && gs[k] == g;
      forall j | 0 <= j < k && gs[j].packId != INVALID
        ensures IdResolves(index, gs[j].packId)
          && gs[j] == Placement(gs[j], rects[index[IndexOf(gs[j].packId)].target], s)
      {
        assert gs[j] == glyphs[..k][j];
      }
    }
  }

  lemma PlacementTwice(g: Glyph, r: Rect, s: Scale)
    ensures Placement(g, r, s).packId == g.packId && Placement(Placement(g, r, s), r, s) == Placement(g, r, s)
  {
  }

  lemma GlyphsHaveIds(glyphs: seq<Glyph>, index: seq<Entry>, rects: seq<Rect>, s: Scale)
    requires GlyphsOk(glyphs, index, rects, s)
    ensures GlyphIds(glyphs, index)
  {
  }

  lemma HalfwayGlyphs(index0: seq<Entry>, index: seq<Entry>, rects: seq<Rect>, glyphs: seq<Glyph>)
    requires Halfway(index0, index, rects, |index|) && GlyphIds(glyphs, index0)
    ensures GlyphIds(glyphs, index)
  {
  }

  /** The blocks of the first `k` entries are the same in both textures. */
  ghost predicate Copied(t0: TextureData, index0: seq<Entry>, rects0: seq<Rect>, t: TextureData, index: seq<Entry>,
      rects: seq<Rect>, k: nat)
    requires t0.Shape() && t.Shape() && |index| == |index0| && k <= |index|
    requires InTexture(index0, rects0, t0.width, t0.height)
    reads t0.pixels, t.pixels
  {
    forall j :: 0 <= j < k && index[j].used && index0[j].used ==>
      && 0 <= index[j].target < |rects| && Inside(rects[index[j].target], t.width, t.height)
      && Block(t, rects[index[j].target]) == Block(t0, rects0[index0[j].target])
  }

  /** What a rectangle shows: its pixels, if it lies within the texture. */
  ghost function Shown(t: TextureData, r: Rect): Image
    requires t.Shape()
    reads t.pixels
  {
    if Inside(r, t.width, t.height) then Block(t, r) else []
  }

  ghost function CellOf(t: TextureData, e: Entry, rects: seq<Rect>): Cell
    requires t.Shape()
    reads t.pixels
  {
    match PlaceOf(e, rects)
    case None => None
    case Some(r) => Some((e.generation, Shown(t, r)))
  }

  ghost function PictureOf(t: TextureData, index: seq<Entry>, rects: seq<Rect>): (cells: seq<Cell>)
    requires t.Shape()
    reads t.pixels
    ensures |cells| == |index|
  {
    seq(|index|, i requires 0 <= i < |index| reads t.pixels => CellOf(t, index[i], rects))
  }

  lemma SamePicture(t0: TextureData, index0: seq<Entry>, rects0: seq<Rect>, t: TextureData, index: seq<Entry>,
      rects: seq<Rect>)
    requires t0.Shape() && t.Shape() && Halfway(index0, index, rects, |index|)
    requires InTexture(index0, rects0, t0.width, t0.height)
    requires Copied(t0, index0, rects0, t, index, rects, |index|)
    ensures InTexture(index, rects, t.width, t.height)
    ensures PictureOf(t, index, rects) == PictureOf(t0, index0, rects0)
  {
  }

  lemma CopiedStep(t0: TextureData, index0: seq<Entry>, rects0: seq<Rect>, t: TextureData, index: seq<Entry>,
      rects: seq<Rect>, k: nat, r: Rect)
    requires t0.Shape() && t.Shape() && InTexture(index0, rects0, t0.width, t0.height)
    requires Halfway(index0, index, rects, k) && k < |index| && index[k].used
    requires Copied(t0, index0, rects0, t, index, rects, k)
    requires Inside(r, t.width, t.height) && Block(t, r) == Block(t0, rects0[index0[k].target])
    ensures Copied(t0, index0, rects0, t, index[k := index[k].(target := |rects|)], rects + [r], k + 1)
  {
  }

  lemma NothingPacked(t: TextureData, index: seq<Entry>, rects: seq<Rect>, boxes: seq<Rect>, glyphs: seq<Glyph>,
      width: nat, height: nat, pad: nat, s: Scale)
    requires |index| == |rects| == |boxes| == |glyphs| == 0
    ensures InTexture(index, rects, width, height) && Packing(boxes, width, height) && LockStep(rects, boxes, pad)
    ensures GlyphsOk(glyphs, index, rects, s) && DistinctGlyphs(glyphs) && Bares(glyphs) == []
      && StaleSlots(glyphs) == {}
    ensures PlacesOf(index, rects) == [] && BoxesArea(boxes) == 0
    ensures t.Shape() ==> PictureOf(t, index, rects) == []
  {
  }

  /** What a list of textures shows. */
  ghost function Seens(list: seq<TextureData>): (views: seq<View>)
    requires forall t :: t in list ==> t.Shape()
    reads list, set t | t in list :: t.pixels, set t | t in list :: t.copy
    ensures |views| == |list| && forall i :: 0 <= i < |list| ==> views[i] == list[i].Seen(false)
  {
    seq(|list|, i requires 0 <= i < |list| && forall t :: t in list ==> t.Shape()
                reads list, set t | t in list :: t.pixels, set t | t in list :: t.copy =>
      assert list[i] in list; list[i].Seen(false))
  }

  /** Those of a list that a frame does not remove. */
  ghost function Staying(list: seq<TextureData>, views: seq<View>): seq<TextureData>
    requires |list| == |views|
  {
    if list == [] then []
    else
      var n := |list| - 1;
      Staying(list[..n], views[..n]) + if Framed(views[n]).removed then [] else [list[n]]
  }

  lemma StayingNext(list: seq<TextureData>, views: seq<View>, k: nat)
    requires k < |list| == |views|
    ensures Staying(list[..k + 1], views[..k + 1]) ==
            if Framed(views[k]).removed then Staying(list[..k], views[..k])
                else Staying(list[..k], views[..k]) + [list[k]]
  {
    hide Framed;
    assert list[..k + 1][..k] == list[..k] && list[..k + 1][k] == list[k];
    assert views[..k + 1][..k] == views[..k] && views[..k + 1][k] == views[k];
  }

  lemma SpliceNext<T>(list: seq<T>, k: nat)
    requires k < |list|
    ensures list[k..] == [list[k]] + list[k + 1..]
  {
  }

  lemma SpliceOut<T>(front: seq<T>, x: T, rest: seq<T>)
    ensures var all := front + ([x] + rest);
            all == front + [x] + rest && all[|front|] == x && all[..|front|] + all[|front| + 1..] == front + rest
  {
  }

  lemma StayingAll(list: seq<TextureData>, views: seq<View>)
    requires |list| == |views|
    ensures Staying(list[..0], views[..0]) == [] && list[0..] == list && list[..|list|] == list
      && views[..|list|] == views
  {
  }

  lemma {:induction false} StayingIn(list: seq<TextureData>, views: seq<View>)
    requires |list| == |views| && AllDifferent(list)
    ensures forall t :: t in Staying(list, views) ==> t in list
    ensures forall i :: 0 <= i < |list| ==> (list[i] in Staying(list, views) <==> !Framed(views[i]).removed)
  {
    hide Framed;
    if list != [] {
      var n := |list| - 1;
      StayingIn(list[..n], views[..n]);
      assert forall i :: 0 <= i < n ==> list[..n][i] == list[i] && views[..n][i] == views[i];
      assert list[n] !in list[..n];
    }
  }

  ghost predicate AllDifferent(list: seq<TextureData>) {
    forall i, j :: 0 <= i < j < |list| ==> list[i] != list[j]
  }

  lemma {:induction false} StayingDifferent(list: seq<TextureData>, views: seq<View>)
    requires |list| == |views| && AllDifferent(list)
    ensures AllDifferent(Staying(list, views))
  {
    hide Framed;
    if list != [] {
      var n := |list| - 1;
      StayingDifferent(list[..n], views[..n]);
      StayingIn(list[..n], views[..n]);
      assert list[n] !in list[..n];
      OneDifferent(Staying(list[..n], views[..n]), list[n]);
    }
  }

  lemma OneDifferent(front: seq<TextureData>, t: TextureData)
    requires AllDifferent(front) && t !in front
    ensures AllDifferent(front + [t])
  {
  }

  lemma FramedFlags(v: View)
    ensures Framed(v).flagged == v.flagged && (Framed(v).removed ==> v.removed || v.flagged)
  {
  }

  class Atlas {
    const setup: Setup
    const table: RectTable
    const packer: Packer
    var texData: TextureData
    var texList: seq<TextureData>
    var uvScale: Scale
    var glyphs: seq<Glyph>
    var lock: bool
    var maxRectWidth: nat
    var maxRectHeight: nat

    /** An atlas with an empty texture of its smallest size and nothing packed. */
    constructor (setup: Setup)
      requires AtlasPacking.Limits(setup)
      ensures Valid() && !lock && this.setup == setup && Held() == Content([], [], [], []) && Listed()
      ensures var w, h := UpperPowerOfTwo(setup.minWidth), UpperPowerOfTwo(setup.minHeight);
              Stored() == Store(w, h, (w, h), [], [], {}, 0, 0, false)
      ensures fresh(table) && fresh(packer) && fresh(texData) && fresh(texData.pixels)
    {
      hide UpperPowerOfTwo, Listed, RectTable.Valid, Valid, Held, Stored;
      this.setup := setup;
      var w, h := UpperPowerOfTwo(setup.minWidth), UpperPowerOfTwo(setup.minHeight);
      UpperWithin(setup.minWidth);
      UpperWithin(setup.minHeight);
      var tex := new TextureData(w, h);
      texData, texList := tex, [tex];
      uvScale := Scale(1.0 / w as real, 1.0 / h as real);
      table := new RectTable(setup.padding);
      packer := new Packer(setup.answer);
      glyphs, lock, maxRectWidth, maxRectHeight := [], false, 0, 0;
      new;
      PackInit();
      NewAtlas();
    }

    lemma NewAtlas()
      requires Fixed() && texData.Shape() && 0 < texData.width <= 0x1_0000 && 0 < texData.height <= 0x1_0000
      requires uvScale == Scale(1.0 / texData.width as real, 1.0 / texData.height as real)
      requires table.rects == [] && table.index == [] && table.free == [] && table.discards == []
        && table.freeStart == -1
      requires table.packedCount == table.discardedCount == 0 && table.packedSurface == table.discardedSurface == 0
      requires packer.width == texData.width && packer.height == texData.height && packer.boxes == []
      requires glyphs == [] && !lock && maxRectWidth == maxRectHeight == 0 && texList == [texData]
        && !texData.wantDestroyNextFrame
      ensures Valid() && Held() == Content([], [], [], []) && Listed()
      ensures Stored() == Store(texData.width, texData.height, (texData.width, texData.height), [], [], {}, 0, 0, false)
    {
      hide FreeList, Targets, Generations, UsedCount, LiveArea, BoxesArea, PlacesOf, StaleSlots, Bares;
      hide InTexture, Packing, LockStep, GlyphsOk, PictureOf, DistinctGlyphs;
      EmptyTable(table.index, table.rects, table.discards, table.padding);
      NothingPacked(texData, table.index, table.rects, packer.boxes, glyphs, texData.width, texData.height,
          table.padding, uvScale);
    }

    /** What never changes. */
    ghost predicate Fixed() {
      AtlasPacking.Limits(setup) && table.padding == setup.padding && packer.answer == setup.answer
    }

    /** What holds in every state: the table, and every glyph's place in it. */
    ghost predicate Core()
      reads this`texData, this`uvScale, this`glyphs
      reads table`rects, table`index, table`freeStart, table`free, table`discards, table`discardedCount
    {
      && Fixed() && texData.Shape() && 0 < texData.width <= 0x1_0000 && 0 < texData.height <= 0x1_0000
      && uvScale == Scale(1.0 / texData.width as real, 1.0 / texData.height as real)
      && table.Linked()
      && UsedCount(table.index) + table.discardedCount == |table.rects|
      && GlyphsOk(glyphs, table.index, table.rects, uvScale) && DistinctGlyphs(glyphs)
    }

    /** What holds even after a repack that found no room: every rectangle lies in the texture as
        well. */
    ghost predicate Base()
      reads this`texData, this`uvScale, this`glyphs
      reads table`rects, table`index, table`freeStart, table`free, table`discards, table`discardedCount
    {
      Core() && InTexture(table.index, table.rects, texData.width, texData.height)
    }

    /** The packer is in step with the table as well. */
    ghost predicate Valid()
      reads this`texData, this`uvScale, this`glyphs, table, packer
    {
      && Base() && table.Valid()
      && packer.width == texData.width && packer.height == texData.height
      && Packing(packer.boxes, packer.width, packer.height)
      && LockStep(table.rects, packer.boxes, table.padding)
      && table.packedSurface == BoxesArea(packer.boxes)
    }

    /** The packer keeps to its own target. */
    ghost predicate Packable()
      reads packer, table`packedSurface
    {
      && 0 < packer.width <= 0x1_0000 && 0 < packer.height <= 0x1_0000
      && Packing(packer.boxes, packer.width, packer.height)
      && table.packedSurface == BoxesArea(packer.boxes)
    }

    /** What adding rectangles starts from and keeps: the atlas is in order, or else it is locked,
        its texture is flagged, and the packer works over a target of its own. */
    ghost predicate Usable()
      reads this`texData, this`uvScale, this`glyphs, this`lock, table, packer, texData`wantDestroyNextFrame
    {
      Core() && Packable() && if lock then texData.wantDestroyNextFrame else Valid()
    }

    /** What the atlas's ids stand for: generation and pixels, entry by entry. */
    ghost function Cells(): (cells: seq<Cell>)
      requires texData.Shape()
      reads this`texData, texData.pixels, table`index, table`rects
      ensures |cells| == |table.index|
    {
      PictureOf(texData, table.index, table.rects)
    }

    /** All that can be told through the ids. */
    ghost function Held(): (c: Content)
      requires texData.Shape()
      reads this`texData, this`glyphs, texData.pixels, table`rects, table`index, table`free, table`discards
      ensures c.discards == table.discards && c.free == table.free && c.cells == Cells()
      ensures |c.cells| == |table.index| && |c.glyphs| == |glyphs| && c.glyphs == Bares(glyphs)
    {
      Content(Cells(), table.discards, table.free, Bares(glyphs))
    }

    /** All that decides where rectangles go and when the texture changes. */
    ghost function Stored(): Store
      reads this`texData, this`glyphs, this`maxRectWidth, this`maxRectHeight, this`lock
      reads packer, table`index, table`rects
    {
      Store(texData.width, texData.height, (packer.width, packer.height), packer.boxes,
          PlacesOf(table.index, table.rects),
            StaleSlots(glyphs), maxRectWidth, maxRectHeight, lock)
    }

    /** The list of textures: the current one, which is only flagged for destruction when the atlas is
        locked, and others, all of them flagged. */
    ghost predicate Listed()
      reads this`texData, this`texList, this`lock, texList
    {
      && texData in texList && AllDifferent(texList)
      && forall t :: t in texList ==> t.Shape() && if t == texData then t.wantDestroyNextFrame ==> lock
          else t.wantDestroyNextFrame
    }

    lemma BaseTargets()
      requires Core()
      ensures Fixed() && table.Linked() && texData.Shape()
      ensures 0 < texData.width <= 0x1_0000 && 0 < texData.height <= 0x1_0000
      ensures |table.discards| == |table.index|
    {
    }

    lemma UsableWhenValid()
      requires Valid() && !lock
      ensures Usable() && Core() && Base()
    {
    }

    method SetTexture(tex: TextureData)
      requires tex.width > 0 && tex.height > 0
      modifies this`texData, this`uvScale
      ensures texData == tex && uvScale == Scale(1.0 / tex.width as real, 1.0 / tex.height as real)
    {
      texData := tex;
      uvScale := Scale(1.0 / tex.width as real, 1.0 / tex.height as real);
    }

    /** Makes a new, empty texture current and plans the end of the old one. */
    method TextureAdd(w: nat, h: nat) returns (tex: TextureData)
      requires w > 0 && h > 0
      modifies this`texData, this`texList, this`uvScale, texData`wantDestroyNextFrame
      ensures old(Listed()) ==> Listed()
      ensures fresh(tex) && fresh(tex.pixels) && tex.Shape() && tex.width == w && tex.height == h
        && !tex.wantDestroyNextFrame
      ensures old(texData).wantDestroyNextFrame && texList == old(texList) + [tex]
      ensures texData == tex && uvScale == Scale(1.0 / w as real, 1.0 / h as real)
    {
      var oldTex := texData;
      tex := new TextureData(w, h);
      texList := texList + [tex];
      oldTex.wantDestroyNextFrame := true;
      SetTexture(tex);
    }

    /** Starts packing over the current texture. */
    method PackInit()
      modifies packer, table`packedSurface, table`packedCount, this`maxRectWidth, this`maxRectHeight
      ensures packer.width == texData.width && packer.height == texData.height && packer.boxes == []
      ensures table.packedSurface == 0 && table.packedCount == 0 && maxRectWidth == maxRectHeight == 0
    {
      packer.InitTarget(texData.width, texData.height);
      table.packedSurface, table.packedCount := 0, 0;
      maxRectWidth, maxRectHeight := 0, 0;
    }

    /** How packing stands. */
    ghost function Standing(ok: bool): Attempt
      reads packer`boxes, this`maxRectWidth, this`maxRectHeight
    {
      Attempt(ok, packer.boxes, maxRectWidth, maxRectHeight)
    }

    /** Packs a rectangle under an existing index entry while resizing is locked: one attempt. */
    method PackOver(w: nat, h: nat, i: nat) returns (ok: bool)
      requires Fixed() && i < |table.index| && table.index[i].used && 0 < w <= 0xFFFF && 0 < h <= 0xFFFF
      requires Packing(packer.boxes, packer.width, packer.height) && LockStep(table.rects, packer.boxes, table.padding)
      requires packer.width <= 0x1_0000 && packer.height <= 0x1_0000
      modifies packer`boxes, table`rects, table`index, table`packedSurface, table`packedCount
      modifies this`maxRectWidth, this`maxRectHeight
      ensures Packing(packer.boxes, packer.width, packer.height) && LockStep(table.rects, packer.boxes, table.padding)
      ensures Standing(ok) == PackOne(setup, packer.width, packer.height, old(Standing(true)), w, h)
      ensures !ok ==>
                && table.rects == old(table.rects) && table.index == old(table.index)
                && packer.boxes == old(packer.boxes)
                && table.packedSurface == old(table.packedSurface)
      ensures ok ==>
                && table.rects != []
                && var r := table.rects[|table.rects| - 1];
                && table.rects == old(table.rects) + [r] && r.w == w && r.h == h
                && Inside(r, packer.width, packer.height)
                && packer.boxes == old(packer.boxes) + [Rect(r.x, r.y, w + table.padding, h + table.padding)]
                && table.index == old(table.index)[i := old(table.index)[i].(target := |old(table.rects)|)]
                && table.packedCount == old(table.packedCount) + 1
                && table.packedSurface == old(table.packedSurface) + (w + table.padding) * (h + table.padding)
    {
      hide Packing, Place, Ushort;
      maxRectWidth, maxRectHeight := Max(maxRectWidth, w), Max(maxRectHeight, h);
      var x, y;
      ok, x, y := packer.Pack(w + table.padding, h + table.padding);
      if !ok {
        return;
      }
      LastInside(packer.boxes, packer.width, packer.height);
      table.packedCount := table.packedCount + 1;
      table.packedSurface := table.packedSurface + (w + table.padding) * (h + table.padding);
      table.rects := table.rects + [Rect(Ushort(x), Ushort(y), Ushort(w), Ushort(h))];
      table.index := table.index[i := table.index[i].(target := |table.rects| - 1)];
    }

    /** What is being repacked: the rectangles of another texture. */
    ghost predicate Source(oldTex: TextureData, rects0: seq<Rect>, index0: seq<Entry>)
      reads this`texData
    {
      && Fixed() && oldTex.Shape() && texData.Shape() && texData.pixels != oldTex.pixels
      && 0 < texData.width <= 0x1_0000 && 0 < texData.height <= 0x1_0000
      && InTexture(index0, rects0, oldTex.width, oldTex.height) && Targets(index0, rects0)
    }

    /** The first `k` entries were repacked, pixels and all. */
    ghost predicate Progress(oldTex: TextureData, rects0: seq<Rect>, index0: seq<Entry>, k: nat)
      requires Source(oldTex, rects0, index0)
      reads this`texData, table, packer, oldTex.pixels, texData.pixels
    {
      && Halfway(index0, table.index, table.rects, k)
      && Sums(table.index, table.rects, k, table.packedCount, table.packedSurface, table.padding)
      && Positions(PlacesOf(index0, rects0), table.index, table.rects, packer.boxes, k)
      && packer.width == texData.width && packer.height == texData.height && Packable()
      && LockStep(table.rects, packer.boxes, table.padding)
      && Copied(oldTex, index0, rects0, texData, table.index, table.rects, k)
    }

    lemma ProgressStart(oldTex: TextureData, rects0: seq<Rect>, index0: seq<Entry>)
      requires Source(oldTex, rects0, index0) && table.index == index0
      requires table.rects == [] && packer.boxes == [] && table.packedCount == 0 && table.packedSurface == 0
      requires packer.width == texData.width && packer.height == texData.height
      ensures Progress(oldTex, rects0, index0, 0)
    {
      HalfwayStart(index0, PlacesOf(index0, rects0), table.rects, packer.boxes, table.padding);
    }

    /** Packs entry `k` anew and copies its pixels. */
    method MoveEntry(oldTex: TextureData, rects0: seq<Rect>, ghost index0: seq<Entry>, k: nat) returns (ok: bool)
      requires Source(oldTex, rects0, index0) && Progress(oldTex, rects0, index0, k)
      requires k < |index0| && index0[k].used && 0 <= index0[k].target < |rects0| && index0[k] == table.index[k]
      requires 0 < rects0[index0[k].target].w <= 0xFFFF && 0 < rects0[index0[k].target].h <= 0xFFFF
      modifies packer`boxes, table`rects, table`index, table`packedSurface, table`packedCount
      modifies this`maxRectWidth, this`maxRectHeight, texData.pixels
      ensures ok ==> Progress(oldTex, rects0, index0, k + 1)
      ensures Packable() && packer.width == texData.width && packer.height == texData.height
      ensures var w, h := rects0[index0[k].target].w, rects0[index0[k].target].h;
              Standing(ok) == PackOne(setup, texData.width, texData.height, old(Standing(true)), w, h)
    {
      hide Packing, Sums, Targets, PackOne, Positions, BoxesArea;
      ghost var index, rects, boxes := table.index, table.rects, packer.boxes;
      var r0 := rects0[table.index[k].target];
      ok := PackOver(r0.w, r0.h, k);
      if !ok {
        return;
      }
      var r := table.rects[|table.rects| - 1];
      ghost var box := packer.boxes[|packer.boxes| - 1];
      LastDisjoint(rects, boxes, r, box, table.padding, packer.width, packer.height);
      AreaMore(boxes, box);
      BlockCopy(oldTex, r0.x, r0.y, texData, r.x, r.y, r.w, r.h);
      assert Copied(oldTex, index0, rects0, texData, index, rects, k);
      CopiedStep(oldTex, index0, rects0, texData, index, rects, k, r);
      HalfwayStep(index0, index, rects, k, r);
      SumsStep(index, rects, k, r, old(table.packedCount), old(table.packedSurface), table.padding);
      PositionsStep(PlacesOf(index0, rects0), index, rects, boxes, k, r, box);
    }

    method RepackEntry(oldTex: TextureData, rects0: seq<Rect>, ghost index0: seq<Entry>, k: nat) returns (ok: bool)
      requires Source(oldTex, rects0, index0) && Progress(oldTex, rects0, index0, k)
      requires k < |table.index| == |index0| && table.index[k].used
      modifies packer`boxes, table`rects, table`index, table`packedSurface, table`packedCount
      modifies this`maxRectWidth, this`maxRectHeight, texData.pixels
      ensures ok ==> Progress(oldTex, rects0, index0, k + 1)
      ensures Packable() && packer.width == texData.width && packer.height == texData.height
      ensures var places := PlacesOf(index0, rects0);
              PackAll(setup, texData.width, texData.height, old(Standing(true)), Sizes(places[k..])) ==
              if ok then PackAll(setup, texData.width, texData.height, Standing(true), Sizes(places[k + 1..]))
                  else Standing(false)
    {
      hide Progress, Packing, PackOne, Sizes, PackAll, InTexture, Targets, BoxesArea;
      EntryAhead(oldTex, rects0, index0, k);
      var r0 := rects0[table.index[k].target];
      SizesAt(PlacesOf(index0, rects0), k);
      PackAllNext(setup, texData.width, texData.height, Standing(true), r0.w, r0.h,
          Sizes(PlacesOf(index0, rects0)[k + 1..]));
      ok := MoveEntry(oldTex, rects0, index0, k);
    }

    lemma EntryAhead(oldTex: TextureData, rects0: seq<Rect>, index0: seq<Entry>, k: nat)
      requires Source(oldTex, rects0, index0) && Progress(oldTex, rects0, index0, k)
      requires k < |table.index| && table.index[k].used
      ensures k < |index0| && index0[k] == table.index[k] && 0 <= index0[k].target < |rects0|
      ensures 0 < rects0[index0[k].target].w <= 0xFFFF && 0 < rects0[index0[k].target].h <= 0xFFFF
    {
    }

    /** Packs the rectangles of `rects0` anew, in the order of the index, and copies their pixels. */
    method RepackEntries(oldTex: TextureData, rects0: seq<Rect>, ghost index0: seq<Entry>) returns (ok: bool)
      requires Source(oldTex, rects0, index0) && Progress(oldTex, rects0, index0, 0)
      modifies packer`boxes, table`rects, table`index, table`packedSurface, table`packedCount
      modifies this`maxRectWidth, this`maxRectHeight, texData.pixels
      ensures ok ==> Progress(oldTex, rects0, index0, |index0|)
      ensures Packable() && packer.width == texData.width && packer.height == texData.height
      ensures Standing(ok) ==
          PackAll(setup, texData.width, texData.height, old(Standing(true)), Sizes(PlacesOf(index0, rects0)))
    {
      hide Packing, Sums, Targets, Halfway, Copied, LockStep, InTexture, PackAll, Sizes, Positions, BoxesArea;
      var k := 0;
      ghost var places := PlacesOf(index0, rects0);
      ghost var goal := PackAll(setup, texData.width, texData.height, Standing(true), Sizes(places));
      HalfwaySize(index0, table.index, table.rects, 0);
      assert places[0..] == places;
      while k < |table.index|
        invariant k <= |table.index| == |index0| && Progress(oldTex, rects0, index0, k)
        invariant PackAll(setup, texData.width, texData.height, Standing(true), Sizes(places[k..])) == goal
      {
        SizesAt(places, k);
        var e := table.index[k];
        HalfwayAhead(index0, rects0, table.index, table.rects, k);
        if !e.used || Emptied(table.index, rects0, k) {
          HalfwaySkip(index0, table.index, table.rects, k, table.packedCount, table.packedSurface, table.padding);
          CopiedSkip(oldTex, index0, rects0, texData, table.index, table.rects, k);
          PositionsSkip(places, table.index, table.rects, packer.boxes, k);
        } else {
          ok := RepackEntry(oldTex, rects0, index0, k);
          if !ok {
            return;
          }
          HalfwaySize(index0, table.index, table.rects, k + 1);
        }
        k := k + 1;
      }
      ok := true;
      NothingLeft(setup, texData.width, texData.height, Standing(true), places[k..]);
    }

    /** Recomputes the texture coordinates of every glyph that has a rectangle. */
    method PatchGlyphs()
      requires GlyphIds(glyphs, table.index) && Targets(table.index, table.rects)
      modifies this`glyphs
      ensures GlyphsOk(glyphs, table.index, table.rects, uvScale)
      ensures SameGlyphs(old(glyphs), glyphs)
    {
      hide GlyphsOk, Targets, IdResolves, IndexOf;
      GlyphStart(glyphs[..0], table.index, table.rects, uvScale);
      for k := 0 to |glyphs|
        invariant |glyphs| == |old(glyphs)|
        invariant forall j :: k <= j < |glyphs| ==> glyphs[j] == old(glyphs)[j]
        invariant forall j :: 0 <= j < k ==>
            glyphs[j].packId == old(glyphs)[j].packId && glyphs[j].stale == old(glyphs)[j].stale
        invariant GlyphsOk(glyphs[..k], table.index, table.rects, uvScale)
      {
        var g := glyphs[k];
        GlyphStep(glyphs, table.index, table.rects, uvScale, k);
        if g.packId != INVALID {
          var r := table.rects[table.index[IndexOf(g.packId)].target];
          glyphs := glyphs[k := Placement(g, r, uvScale)];
        }
      }
      assert glyphs[..|glyphs|] == glyphs;
    }

    /** Replaces the texture by one of the given size, or by the first larger one into which all
        live rectangles can be packed; if growing ends before there is one, the atlas is locked,
        and left as it was but for the current texture being flagged and for the packer, which has
        what it made of the last size. Whatever comes of it, every id keeps its generation, its
        size and its pixels, and every glyph shows its rectangle. */
    method Repack(w: nat, h: nat)
      requires Base() && 0 < w <= 0x1_0000 && 0 < h <= 0x1_0000
      modifies this, packer, texData`wantDestroyNextFrame
      modifies table`rects, table`index, table`packedSurface, table`packedCount, table`discardedCount
      modifies table`discardedSurface
      ensures Base() && Usable() && Held() == old(Held())
      ensures Stored() == Repacked(setup, old(Stored()), w, h)
      ensures old(Listed()) ==> Listed()
      ensures var sizes := Sizes(old(Stored()).places); lock <==> AllRefuse(setup, sizes, Growth(setup, sizes, w, h))
      ensures old(texData).wantDestroyNextFrame
      ensures !lock ==>
                && Valid() && table.discardedCount == 0
                && fresh(texData) && fresh(texData.pixels) && !texData.wantDestroyNextFrame
      ensures lock ==> texData == old(texData) && table.rects == old(table.rects) && table.index == old(table.index)
      ensures lock ==> table.discardedCount == old(table.discardedCount) && glyphs == old(glyphs)
      decreases Room(setup, w, h), 1
    {
      hide Core, Valid, Packable, Cells, Held, PlacesOf, StaleSlots, Sizes, Attempted, NextSize, Moved, Packing;
      hide Refuses, AllRefuse, Growth, Repacked, GrownFrom, Tried;
      BaseTargets();
      ghost var st := Stored();
      RepackedNow(setup, st, w, h);
      TriedInChain(setup, Sizes(st.places), w, h);
      RepackedLock(setup, st, w, h);
      MovedLocked(setup, st, (w, h), true);
      lock := true;
      var ok := TryRepack(w, h);
      if !ok {
        Grow(w, h);
        return;
      }
      ghost var now := Stored();
      lock := false;
      assert Stored() == now.(locked := false);
    }

    /** One attempt at repacking into a texture of the given size; a failed one is undone. */
    method TryRepack(w: nat, h: nat) returns (ok: bool)
      requires Base() && 0 < w <= 0x1_0000 && 0 < h <= 0x1_0000
      modifies this`texData, this`texList, this`uvScale, this`glyphs, this`maxRectWidth, this`maxRectHeight
      modifies packer, texData`wantDestroyNextFrame
      modifies table`rects, table`index, table`packedSurface, table`packedCount, table`discardedCount
      modifies table`discardedSurface
      ensures Base() && Packable() && Held() == old(Held())
      ensures old(texData).wantDestroyNextFrame
      ensures var m := Moved(setup, old(Stored()), (w, h)); ok == !m.locked && Stored() == m.(locked := lock)
      ensures old(Listed()) && lock ==> Listed()
      ensures ok ==>
                && Valid() && table.discardedCount == 0
                && fresh(texData) && fresh(texData.pixels) && !texData.wantDestroyNextFrame
      ensures !ok ==> texData == old(texData) && table.rects == old(table.rects) && table.index == old(table.index)
      ensures !ok ==> table.discardedCount == old(table.discardedCount) && glyphs == old(glyphs)
    {
      hide Halfway, Copied, Packing, LockStep, Sums, Targets, Generations, FreeList, GlyphsOk, InTexture, UsedCount;
      hide LiveArea, PictureOf;
      hide Listed, GlyphIds, Progress, Sizes, PackAll, AreaOf, Bares, DistinctGlyphs, Dealt, BoxesArea, StaleSlots;
      hide PlacesOf;
      BaseTargets();
      GlyphsHaveIds(glyphs, table.index, table.rects, uvScale);
      var oldTex, rects0, index0;
      ok, oldTex, rects0, index0 := PackAnew(w, h);
      if !ok {
        GoBack(oldTex, rects0, index0);
        return;
      }
      FinishRepack(oldTex, rects0, index0);
    }

    /** The new texture is not needed; everything is back in the old one. */
    method GoBack(oldTex: TextureData, rects0: seq<Rect>, index0: seq<Entry>)
      requires oldTex.width > 0 && oldTex.height > 0 && oldTex.wantDestroyNextFrame
      modifies texData`wantDestroyNextFrame, table`rects, table`index, this`texData, this`uvScale
      ensures texData == oldTex && uvScale == Scale(1.0 / texData.width as real, 1.0 / texData.height as real)
      ensures table.rects == rects0 && table.index == index0 && oldTex.wantDestroyNextFrame
      ensures old(Listed()) && lock && oldTex in texList ==> Listed()
    {
      texData.wantDestroyNextFrame := true;
      table.rects, table.index := rects0, index0;
      SetTexture(oldTex);
    }

    /** Packs everything into a new texture, as far as it goes. */
    method PackAnew(w: nat, h: nat) returns (ok: bool, oldTex: TextureData, rects0: seq<Rect>, index0: seq<Entry>)
      requires Base() && 0 < w <= 0x1_0000 && 0 < h <= 0x1_0000
      modifies this`texData, this`texList, this`uvScale, this`maxRectWidth, this`maxRectHeight
      modifies packer, texData`wantDestroyNextFrame, table`rects, table`index, table`packedSurface, table`packedCount
      ensures oldTex == old(texData) && oldTex.wantDestroyNextFrame && rects0 == old(table.rects)
        && index0 == old(table.index)
      ensures fresh(texData) && fresh(texData.pixels) && texData.width == w && texData.height == h
        && !texData.wantDestroyNextFrame
      ensures uvScale == Scale(1.0 / w as real, 1.0 / h as real) && Packable() && packer.width == w
        && packer.height == h
      ensures old(Listed()) ==> Listed() && oldTex in texList
      ensures Source(oldTex, rects0, index0) && (ok ==> Progress(oldTex, rects0, index0, |index0|))
      ensures Standing(ok) == Attempted(setup, Sizes(PlacesOf(index0, rects0)), w, h)
    {
      hide Halfway, Copied, Packing, LockStep, Sums, Targets, Generations, FreeList, GlyphsOk, InTexture, UsedCount;
      hide LiveArea;
      hide Progress, Sizes, PackAll, DistinctGlyphs, PlacesOf, BoxesArea;
      oldTex := texData;
      var _ := TextureAdd(w, h);
      PackInit();
      rects0, index0 := table.rects, table.index;
      table.rects := [];
      ProgressStart(oldTex, rects0, index0);
      ok := RepackEntries(oldTex, rects0, index0);
    }

    /** Nothing was lost: the discards are gone from the table, and the glyphs are moved along. */
    method FinishRepack(oldTex: TextureData, ghost rects0: seq<Rect>, ghost index0: seq<Entry>)
      requires Source(oldTex, rects0, index0) && Progress(oldTex, rects0, index0, |index0|)
      requires Fixed() && 0 < texData.width <= 0x1_0000 && 0 < texData.height <= 0x1_0000
      requires uvScale == Scale(1.0 / texData.width as real, 1.0 / texData.height as real)
      requires |index0| <= INDEX_RANGE && FreeList(index0, table.freeStart, table.free)
        && Generations(index0, table.discards)
      requires GlyphIds(glyphs, index0) && DistinctGlyphs(glyphs)
      modifies this`glyphs, table`discardedCount, table`discardedSurface
      ensures Valid()
        && Held() == Content(PictureOf(oldTex, index0, rects0), table.discards, table.free, Bares(old(glyphs)))
      ensures table.discardedCount == 0
      ensures PlacesOf(table.index, table.rects) == Dealt(PlacesOf(index0, rects0), packer.boxes)
      ensures StaleSlots(glyphs) == StaleSlots(old(glyphs))
    {
      hide Halfway, Sums, InTexture, Copied, Packing, LockStep, Targets, Generations, FreeList, GlyphsOk, GlyphIds;
      hide UsedCount, LiveArea, PictureOf, DistinctGlyphs, Bares, SameGlyphs, Positions, Dealt, BoxesArea, StaleSlots;
      hide PlacesOf;
      table.discardedCount := 0;
      table.discardedSurface := 0;
      HalfwaySize(index0, table.index, table.rects, |index0|);
      HalfwayEnd(index0, table.index, table.rects, table.freeStart, table.free, table.discards);
      HalfwayGlyphs(index0, table.index, table.rects, glyphs);
      SumsEnd(table.index, table.rects, table.packedCount, table.packedSurface, table.padding);
      PositionsEnd(PlacesOf(index0, rects0), table.index, table.rects, packer.boxes);
      SamePicture(oldTex, index0, rects0, texData, table.index, table.rects);
      PatchGlyphs();
      SameDistinct(old(glyphs), glyphs);
      SameBares(old(glyphs), glyphs);
      SameStale(old(glyphs), glyphs);
    }

    /** Repacks into the next size, unless growing has come to its end. */
    method Grow(oldW: nat, oldH: nat)
      requires Base() && Usable() && 0 < oldW <= 0x1_0000 && 0 < oldH <= 0x1_0000
      modifies this, packer, texData`wantDestroyNextFrame
      modifies table`rects, table`index, table`packedSurface, table`packedCount, table`discardedCount
      modifies table`discardedSurface
      ensures Base() && Usable() && Held() == old(Held())
      ensures Stored() == GrownFrom(setup, old(Stored()), oldW, oldH)
      ensures old(Listed()) ==> Listed()
      ensures texData != old(texData) ==>
                && !lock && table.discardedCount == 0 && fresh(texData) && fresh(texData.pixels)
                && !texData.wantDestroyNextFrame && old(texData).wantDestroyNextFrame
      ensures texData == old(texData) ==> table.rects == old(table.rects) && table.index == old(table.index)
      ensures texData == old(texData) ==>
                table.discardedCount == old(table.discardedCount) && glyphs == old(glyphs) && (old(lock) ==> lock)
      decreases Room(setup, oldW, oldH), 0
    {
      hide Listed, Core, Valid, Packable, Held, Cells, UpperPowerOfTwo, Sizes, Attempted, Moved, Packing;
      hide RectTable.Linked, Repacked, AllRefuse, Growth, PlacesOf, StaleSlots;
      var w := if oldH <= oldW then oldW else oldW * 2;
      var h := if oldH <= oldW then oldH * 2 else oldH;
      w := Max(w, UpperPowerOfTwo(maxRectWidth + table.padding));
      h := Max(h, UpperPowerOfTwo(maxRectHeight + table.padding));
      w := Clamp(w, setup.minWidth, setup.maxWidth);
      h := Clamp(h, setup.minHeight, setup.maxHeight);
      BaseTargets();
      NextCloser(setup, oldW, oldH, maxRectWidth, maxRectHeight);
      assert (w, h) == NextSize(setup, oldW, oldH, maxRectWidth, maxRectHeight);
      hide NextSize, Room, Clamp, Max, Min;
      if w == oldW && h == oldH {
        return;
      }
      Repack(w, h);
    }

    /** The start of a frame: every texture is updated, and those that are gone leave the list. The
        current one only ever leaves it when the atlas is locked. */
    method UpdateTextures()
      requires Listed()
      modifies this`texList, texList
      ensures texList == Staying(old(texList), old(Seens(texList)))
      ensures FramedFrom(old(texList), old(Seens(texList)), |old(texList)|)
      ensures if texData in texList then Listed() else lock
    {
      hide Framed, Staying;
      ghost var all, views := texList, Seens(texList);
      FrameAll(all, views);
      StayingIn(all, views);
      StayingDifferent(all, views);
      forall i | 0 <= i < |all| ensures Framed(views[i]).removed ==> all[i].wantDestroyNextFrame {
        FramedFlags(views[i]);
      }
    }

    method FrameAll(ghost all: seq<TextureData>, ghost views: seq<View>)
      requires all == texList && AllDifferent(all) && |all| == |views| && FramedFrom(all, views, 0)
      modifies this`texList, all
      ensures texList == Staying(all, views) && FramedFrom(all, views, |all|)
      ensures forall i :: 0 <= i < |all| ==> all[i].wantDestroyNextFrame == old(all[i].wantDestroyNextFrame)
    {
      hide Framed, Staying, FramedFrom;
      ghost var k := 0;
      var n: nat := 0;
      StayingAll(all, views);
      while n < |texList|
        invariant k <= |all| && Passed(all, views, k, n) && FramedFrom(all, views, k)
        invariant forall i :: 0 <= i < |all| ==> all[i].wantDestroyNextFrame == old(all[i].wantDestroyNextFrame)
        decreases |all| - k
      {
        n := FrameNext(all, views, k, n);
        k := k + 1;
      }
    }

    /** The loop has passed `k` textures, of which `n` stay. */
    ghost predicate Passed(all: seq<TextureData>, views: seq<View>, k: nat, n: nat)
      requires k <= |all| == |views|
      reads this`texList
    {
      n == |Staying(all[..k], views[..k])| && texList == Staying(all[..k], views[..k]) + all[k..]
    }

    method FrameNext(ghost all: seq<TextureData>, ghost views: seq<View>, ghost k: nat, n: nat) returns (n': nat)
      requires k < |all| == |views| && Passed(all, views, k, n) && FramedFrom(all, views, k)
      requires AllDifferent(all)
      modifies this`texList, all
      ensures Passed(all, views, k + 1, n') && FramedFrom(all, views, k + 1)
      ensures forall i :: 0 <= i < |all| ==> all[i].wantDestroyNextFrame == old(all[i].wantDestroyNextFrame)
    {
      hide Framed, Staying, FramedFrom;
      StayingNext(all, views, k);
      SpliceNext(all, k);
      SpliceOut(Staying(all[..k], views[..k]), all[k], all[k + 1..]);
      n' := n;
      var remove := FrameOne(texList[n], all, views, k);
      if remove {
        texList := texList[..n] + texList[n + 1..];
      } else {
        n' := n + 1;
      }
    }

    /** One texture's frame. */
    method FrameOne(tex: TextureData, ghost all: seq<TextureData>, ghost views: seq<View>, ghost k: nat)
      returns (remove: bool)
      requires k < |all| == |views| && tex == all[k] && FramedFrom(all, views, k)
      requires AllDifferent(all)
      modifies tex`status, tex`updates, tex`updateRect, tex`unusedFrames
      ensures FramedFrom(all, views, k + 1) && remove == Framed(views[k]).removed
    {
      hide Framed;
      remove := tex.UpdateNewFrame();
    }

    /** The first `k` textures are as a frame leaves them, and the others as they were. */
    ghost predicate FramedFrom(all: seq<TextureData>, views: seq<View>, k: nat)
      requires |all| == |views|
      reads all, set t | t in all :: t.pixels, set t | t in all :: t.copy
    {
      forall i :: 0 <= i < |all| ==>
        && all[i].Shape()
        && if i < k then all[i].Seen(Framed(views[i]).removed) == Framed(views[i]) else all[i].Seen(false) == views[i]
    }

    /** The table and the glyphs `gs` are in order, over the current texture. */
    ghost predicate Steady(gs: seq<Glyph>)
      reads this`texData, this`uvScale, table, packer`boxes
    {
      && table.Valid() && texData.Shape()
      && InTexture(table.index, table.rects, texData.width, texData.height)
      && LockStep(table.rects, packer.boxes, table.padding)
      && GlyphsOk(gs, table.index, table.rects, uvScale) && DistinctGlyphs(gs)
    }

    lemma SteadyAt(gs: seq<Glyph>, p: nat)
      requires Steady(gs) && p < |gs| && gs[p].packId != INVALID
      ensures Targets(table.index, table.rects) && IdResolves(table.index, gs[p].packId)
        && |table.discards| == |table.index|
    {
      hide DistinctGlyphs;
    }

    /** What the stale glyphs among `gs` have left of what was there before. */
    ghost predicate Erased(cells: seq<Cell>, places: seq<Option<Rect>>, discards: seq<nat>, free: seq<nat>,
        gs: seq<Glyph>)
      requires texData.Shape()
      reads this`texData, texData.pixels, table`index, table`rects, table`discards, table`free
    {
      && Cells() == Spared(cells, StaleSlots(gs))
      && PlacesOf(table.index, table.rects) == Spared(places, StaleSlots(gs))
      && table.discards == Bumped(discards, StaleSlots(gs)) && table.free == FreeAfter(gs, free)
    }

    /** Gives up the rectangle of glyph `p`. */
    method DiscardOne(ghost gs: seq<Glyph>, p: nat, id: int)
      requires Steady(gs) && p < |gs| && gs[p].packId == id != INVALID
      modifies table
      ensures Steady(Without(gs, p)) && table.freeStart >= 0 && table.packedSurface == old(table.packedSurface)
      ensures table.free == [IndexOf(id)] + old(table.free)
      ensures var i := IndexOf(id);
              && i < |old(table.index)| && Cells() == old(Cells())[i := None]
              && PlacesOf(table.index, table.rects) == old(PlacesOf(table.index, table.rects))[i := None]
              && i < |old(table.discards)| && table.discards == old(table.discards)[i := old(table.discards)[i] + 1]
    {
      hide LockStep, InTexture, PictureOf, DistinctGlyphs, GlyphsOk, RectTable.Valid, Targets, Older, PlacesOf;
      ghost var index, rects := table.index, table.rects;
      SteadyAt(gs, p);
      table.DiscardRect(id);
      DiscardPlaces(index, rects, table.index, table.rects, IndexOf(id), texData.width, texData.height, packer.boxes,
          table.padding);
      DiscardPicture(texData, index, rects, table.index, table.rects, IndexOf(id));
      DiscardGlyph(gs, p, index, rects, table.index, table.rects, uvScale);
    }

    /** Glyph `g`'s turn, between those that had theirs and the rest. */
    method DiscardNext(
        g: Glyph, kept0: seq<Glyph>, ghost front: seq<Glyph>, ghost rest: seq<Glyph>,
        ghost cells: seq<Cell>, ghost places: seq<Option<Rect>>, ghost discards: seq<nat>, ghost free: seq<nat>)
      returns (kept: seq<Glyph>)
      requires Steady(kept0 + [g] + rest) && kept0 == Recent(front) && Erased(cells, places, discards, free, front)
      requires g.packId != INVALID ==> IndexOf(g.packId) !in StaleSlots(front)
      modifies table
      ensures Steady(kept + rest) && kept == Recent(front + [g]) && Erased(cells, places, discards, free, front + [g])
      ensures (old(table.freeStart) >= 0 ==> table.freeStart >= 0) && table.packedSurface == old(table.packedSurface)
    {
      hide Steady, Cells, DistinctGlyphs, StaleSlots, StaleSlot, Spared, Bumped, PlacesOf, IndexOf, Recent, FreeAfter;
      hide Without;
      kept := kept0;
      WithoutMiddle(kept, g, rest);
      OneMoreGlyph(front, g, free);
      if g.stale && g.packId != INVALID {
        SparedOne(cells, StaleSlots(front), IndexOf(g.packId));
        SparedOne(places, StaleSlots(front), IndexOf(g.packId));
        DiscardOne(kept + [g] + rest, |kept|, g.packId);
        BumpedOne(discards, StaleSlots(front), IndexOf(g.packId));
      } else if g.stale {
        SteadyWithout(kept + [g] + rest, |kept|);
      } else {
        kept := kept + [g];
      }
    }

    /** Gives up the rectangles of the glyphs that were not used lately, one after another. */
    method DiscardStale() returns (kept: seq<Glyph>)
      requires Steady(glyphs)
      modifies table
      ensures Steady(kept) && kept == Recent(glyphs) && table.packedSurface == old(table.packedSurface)
      ensures Erased(old(Cells()), old(PlacesOf(table.index, table.rects)), old(table.discards), old(table.free),
          glyphs)
      ensures old(table.freeStart) >= 0 ==> table.freeStart >= 0
    {
      hide RectTable.Valid, LockStep, InTexture, Cells, Packing, GlyphsOk, DistinctGlyphs, Spared, Bumped, PlacesOf;
      var gs := glyphs;
      kept := [];
      ghost var cells, places, discards := Cells(), PlacesOf(table.index, table.rects), table.discards;
      assert kept + gs[0..] == gs;
      SparedNone(cells, discards);
      SparedNone(places, discards);
      for k := 0 to |gs|
        invariant Steady(kept + gs[k..]) && kept == Recent(gs[..k]) && table.packedSurface == old(table.packedSurface)
        invariant Erased(cells, places, discards, old(table.free), gs[..k])
        invariant old(table.freeStart) >= 0 ==> table.freeStart >= 0
      {
        hide Steady, Erased, Recent, StaleSlots;
        TurnOf(gs, k, kept);
        if gs[k].packId != INVALID {
          OwnSlot(gs, k);
        }
        kept := DiscardNext(gs[k], kept, gs[..k], gs[k + 1..], cells, places, discards, old(table.free));
      }
      assert gs[..|gs|] == gs && kept + gs[|gs|..] == kept;
    }

    /** Gives up the rectangles of the glyphs that were not used lately, and those glyphs. */
    method DiscardBakes()
      requires Valid()
      modifies table, this`glyphs
      ensures Valid() && glyphs == Recent(old(glyphs)) && Held() == Freed(old(Held()))
        && Stored() == Pruned(old(Stored()))
      ensures old(table.freeStart) >= 0 ==> table.freeStart >= 0
    {
      hide RectTable.Valid, LockStep, InTexture, Cells, Packing, GlyphsOk, DistinctGlyphs, StaleSlots, Spared, Bumped;
      hide Freed, Pruned;
      hide PlacesOf, Bares, Recent, BoxesArea, RectTable.Linked, UsedCount;
      ghost var held, st := Held(), Stored();
      glyphs := DiscardStale();
      ValidWhenSteady();
      PrunedNow(held, st, old(glyphs));
    }

    lemma PrunedNow(held: Content, st: Store, gs: seq<Glyph>)
      requires texData.Shape() && Erased(held.cells, st.places, held.discards, held.free, gs) && glyphs == Recent(gs)
      requires held.glyphs == Bares(gs) && st == Stored().(places := st.places, stale := StaleSlots(gs))
      ensures Held() == Freed(held) && Stored() == Pruned(st)
    {
      hide StaleSlots, Spared, Bumped, PlacesOf, Bares, Recent, Cells;
      ErasedFreed(held, gs);
      RecentNotStale(gs);
      NoneStale(glyphs, []);
    }

    /** Frees what can be freed, then repacks at the same size if that was a fifth of what is
        packed, and grows otherwise. */
    method MakeSpace()
      requires Valid() && !lock
      modifies this, packer, table, texData`wantDestroyNextFrame
      ensures Base() && Usable() && Held() == Freed(old(Held())) && Stored() == Spaced(setup, old(Stored()))
      ensures var st := Pruned(old(Stored()));
              var packed := old(table.packedSurface);
              var given := packed - AreaOf(Sizes(st.places), setup.padding);
              && given >= 0
              && (5 * given >= packed ==> Stored() == Repacked(setup, st, st.width, st.height))
              && (5 * given < packed ==> Stored() == GrownFrom(setup, st, st.width, st.height))
      ensures old(Listed()) ==> Listed()
      ensures texData == old(texData) || (fresh(texData) && fresh(texData.pixels))
      ensures old(table.freeStart) >= 0 ==> table.freeStart >= 0
    {
      hide Core, Cells, Held, Freed, Sizes, AreaOf, Packing, NextSize, Tried, Moved, Refuses, Repacked, GrownFrom;
      hide AllRefuse, Growth;
      hide Listed, RectTable.Valid, RectTable.Linked, PlacesOf, StaleSlots, Packable, BoxesArea;
      DiscardBakes();
      UsableWhenValid();
      SurfaceLeft();
      if table.discardedSurface * 5 < table.packedSurface {
        Grow(texData.width, texData.height);
      } else {
        Repack(texData.width, texData.height);
      }
    }

    /** The surface that was discarded is what is packed but for the live rectangles. */
    lemma SurfaceLeft()
      requires Valid()
      ensures table.packedSurface == BoxesArea(packer.boxes)
      ensures table.discardedSurface == BoxesArea(packer.boxes) - AreaOf(Sizes(Stored().places), setup.padding) >= 0
      ensures Core() && Base() && Packing(packer.boxes, packer.width, packer.height)
      ensures 0 < texData.width <= 0x1_0000 && 0 < texData.height <= 0x1_0000 && Fixed()
    {
      hide InTexture, LockStep, GlyphsOk, FreeList, Generations, Targets, UsedCount, LiveArea, Sizes, AreaOf, Packing;
      hide BoxesArea, PlacesOf;
      AreaOfPlaces(table.index, table.rects, table.padding);
    }

    /** A box was packed whose rectangle is not in the table yet. */
    ghost predicate Pending(box: Rect)
      reads this`texData, this`uvScale, this`glyphs, table, packer
    {
      && Base() && table.Valid() && packer.width == texData.width && packer.height == texData.height
      && packer.boxes != [] && packer.boxes[|packer.boxes| - 1] == box
      && Packing(packer.boxes, packer.width, packer.height)
      && LockStep(table.rects, packer.boxes[..|packer.boxes| - 1], table.padding)
    }

    /** Gives up the rectangle of an id, if it still has one. The atlas stays in order exactly if no
        glyph has it. */
    method RemoveRect(id: int)
      requires Valid()
      modifies table
      ensures !table.Resolves(id) && texData.Shape()
      ensures Valid() <==> !old(table.Resolves(id)) || Unclaimed(glyphs, IndexOf(id))
      ensures !old(table.Resolves(id)) ==> Held() == old(Held()) && Stored() == old(Stored())
      ensures old(table.Resolves(id)) ==>
                && var i := IndexOf(id);
                && i < |old(table.discards)| && i < |old(table.index)|
                && Held() == old(Held()).(cells := old(Held()).cells[i := None], free := [i] + old(table.free),
                                          discards := old(table.discards)[i := old(table.discards)[i] + 1])
                && Stored() == old(Stored()).(places := old(Stored()).places[i := None])
    {
      hide LockStep, InTexture, PictureOf, DistinctGlyphs, GlyphsOk, Targets, Older, Unclaimed, Packing, FreeList;
      hide Generations, UsedCount;
      hide LiveArea, PlacesOf, StaleSlots, BoxesArea, Bares;
      ghost var index, rects := table.index, table.rects;
      BaseTargets();
      var r := table.GetRectSafe(id);
      if r == None {
        return;
      }
      table.DiscardRect(id);
      DiscardPlaces(index, rects, table.index, table.rects, IndexOf(id), texData.width, texData.height, packer.boxes,
          table.padding);
      DiscardPicture(texData, index, rects, table.index, table.rects, IndexOf(id));
      if Unclaimed(glyphs, IndexOf(id)) {
        DiscardOther(glyphs, index, rects, table.index, table.rects, IndexOf(id), uvScale);
      } else {
        ClaimedLost(glyphs, table.index, table.rects, IndexOf(id), uvScale);
      }
    }

    /** Counts a rectangle's sides among those asked for. */
    method Ask(w: nat, h: nat)
      requires Usable()
      modifies this`maxRectWidth, this`maxRectHeight
      ensures Usable() && Held() == old(Held()) && Stored() == Asked(old(Stored()), w, h)
    {
      hide Core, Cells, Valid, Packable, PlacesOf, StaleSlots;
      BaseTargets();
      maxRectWidth, maxRectHeight := Max(maxRectWidth, w), Max(maxRectHeight, h);
    }

    /** The box is packed at the spot that was found, and its rectangle is not in the table yet; or no
        room was found. */
    ghost predicate Looked(f: Found, w: nat, h: nat, packed: bool, x: nat, y: nat)
      reads this`texData, this`uvScale, this`glyphs, this`lock, this`maxRectWidth, this`maxRectHeight
      reads table, packer, texData`wantDestroyNextFrame
    {
      && Core() && Packing(packer.boxes, packer.width, packer.height)
      && f.spot == (if packed then Some((x, y)) else None) && Stored() == Boxed(f, w + setup.padding, h + setup.padding)
      && 0 < f.store.target.0 <= 0x1_0000 && 0 < f.store.target.1 <= 0x1_0000
      && table.packedSurface == BoxesArea(f.store.boxes)
      && if !packed then Usable()
         else if lock then texData.wantDestroyNextFrame
         else Pending(Rect(x, y, w + setup.padding, h + setup.padding))
    }

    /** One attempt at placing a rectangle's box. */
    method PackBox(w: nat, h: nat) returns (packed: bool, x: nat, y: nat)
      requires Usable()
      modifies packer`boxes
      ensures Looked(Found(PlaceIn(setup, old(Stored()), w, h), old(Stored())), w, h, packed, x, y)
        && Held() == old(Held())
    {
      hide Packing, Place, LockStep, RectTable.Valid, PlacesOf, StaleSlots, BoxesArea;
      hide GlyphsOk, DistinctGlyphs, InTexture, UsedCount, RectTable.Linked, Cells, Held;
      packed, x, y := packer.Pack(w + setup.padding, h + setup.padding);
      assert packed ==> packer.boxes[..|packer.boxes| - 1] == old(packer.boxes);
    }

    lemma NotPacked(f: Found, w: nat, h: nat, packed: bool, x: nat, y: nat)
      requires Looked(f, w, h, packed, x, y)
      ensures packed <==> f.spot.Some?
      ensures !packed ==> Usable() && Stored() == f.store
      ensures lock == f.store.locked && texData.Shape()
    {
      hide Valid, Pending, Packing, GlyphsOk, DistinctGlyphs, BoxesArea, PlacesOf, StaleSlots;
    }

    /** One of the attempts: unless it is the last, a failed one makes space. */
    method TryRoom(w: nat, h: nat, attempts: nat) returns (done: bool, packed: bool, x: nat, y: nat)
      requires Usable() && Fixed() && texData.Shape() && texData.width > 0 && texData.height > 0
      modifies this, packer, table, texData`wantDestroyNextFrame
      ensures texData.Shape() && texData.width > 0 && texData.height > 0
      ensures var st := old(Stored()); var p := PlaceIn(setup, st, w, h);
              && done == (p.Some? || attempts == 0 || st.locked)
              && (done ==> Looked(Found(p, st), w, h, packed, x, y) && Held() == old(Held()))
              && (!done ==> Usable() && Held() == Freed(old(Held())) && Stored() == Spaced(setup, st))
      ensures old(table.freeStart) >= 0 ==> table.freeStart >= 0
      ensures (old(Listed()) ==> Listed()) && (texData == old(texData) || (fresh(texData) && fresh(texData.pixels)))
    {
      hide Listed, Valid, Core, Held, Freed, Spaced, Looked, Packable, Place, PlacesOf, StaleSlots;
      ghost var now := Stored();
      packed, x, y := PackBox(w, h);
      NotPacked(Found(PlaceIn(setup, now, w, h), now), w, h, packed, x, y);
      done := packed || attempts == 0 || lock;
      if !done {
        MakeSpace();
        BaseTargets();
      }
    }

    /** Four attempts at placing a box, with the atlas making space in between; only one when it is
        locked. */
    method FindRoom(w: nat, h: nat) returns (packed: bool, x: nat, y: nat)
      requires Usable()
      modifies this, packer, table, texData`wantDestroyNextFrame
      ensures texData.Shape() && Held() == old(KeptFor(setup, Stored(), Held(), w, h)) && (old(Listed()) ==> Listed())
      ensures Looked(Adding(setup, old(Stored()), w, h), w, h, packed, x, y)
      ensures old(table.freeStart) >= 0 ==> table.freeStart >= 0
      ensures texData == old(texData) || (fresh(texData) && fresh(texData.pixels))
    {
      hide Listed, Valid, Core, Held, Freed, Search, Spaced, Looked, Packable, Place, PlacesOf, StaleSlots;
      BaseTargets();
      ghost var held, asked := Held(), Asked(Stored(), w, h);
      ghost var goal := Search(setup, asked, w, h, 3);
      Ask(w, h);
      var attempts, done := 3, false;
      packed, x, y := false, 0, 0;
      while !done
        invariant 0 <= attempts <= 3 && texData.Shape() && texData.width > 0 && texData.height > 0
        invariant texData == old(texData) || (fresh(texData) && fresh(texData.pixels))
        invariant !done ==> Usable() && Search(setup, Stored(), w, h, attempts) == goal
        invariant !done && attempts == 3 ==> Held() == held && Stored() == asked
        invariant !done && attempts < 3 ==> Held() == Freed(held) && !Now(asked, w, h)
        invariant done ==> Looked(goal, w, h, packed, x, y) && Held() == if Now(asked, w, h) then held else Freed(held)
        invariant old(table.freeStart) >= 0 ==> table.freeStart >= 0
        invariant old(Listed()) ==> Listed()
        decreases attempts, !done
      {
        hide Usable, Now;
        SearchNow(setup, Stored(), w, h, attempts);
        NowIs(Stored(), w, h);
        FreedTwice(held);
        done, packed, x, y := TryRoom(w, h, attempts);
        if !done {
          attempts := attempts - 1;
        }
      }
    }

    /** A rectangle is placed now or never. */
    ghost predicate Now(st: Store, w: nat, h: nat) { st.locked || PlaceIn(setup, st, w, h).Some? }

    lemma NowIs(st: Store, w: nat, h: nat)
      ensures Now(st, w, h) <==> st.locked || PlaceIn(setup, st, w, h).Some?
    {
    }

    /** Packs a rectangle. An id is returned exactly if the search finds a spot, and it leads to a
        rectangle of the asked size at that spot. When space has to be made, the stale glyphs'
        rectangles are given up; apart from that every id keeps its rectangle and its pixels. As
        long as the atlas is not locked, the new rectangle lies within the texture and clear of all
        others. Once it is, the packer works over another target and other boxes, and the
        rectangle fits exactly if there happens to be room for it. If all that is in use, and not
        stale, needs more area with the new rectangle than the largest texture has, there is no
        id, or else the atlas is locked. */
    method AddRect(w: nat, h: nat) returns (id: int)
      requires Usable() && 0 < w <= 0xFFFF && 0 < h <= 0xFFFF
      requires table.freeStart < 0 ==> |table.index| < INDEX_RANGE
      modifies this, packer, table, texData`wantDestroyNextFrame
      ensures Usable() && Entered(old(KeptFor(setup, Stored(), Held(), w, h)), Held(), id)
      ensures old(Listed()) ==> Listed()
      ensures var f := Adding(setup, old(Stored()), w, h);
              && (id != INVALID <==> f.spot.Some?)
              && (id == INVALID ==> Stored() == f.store)
              && (id != INVALID ==> Handed(id, f, w, h))
      ensures id != INVALID ==> Unclaimed(glyphs, IndexOf(id)) && (!lock ==> Fits(Stored(), IndexOf(id), RectOf(id)))
      ensures old(InLimits()) && TooLarge(setup, old(Stored()), w, h) ==> id == INVALID || lock
      ensures texData == old(texData) || (fresh(texData) && fresh(texData.pixels))
    {
      hide Listed, Unclaimed, Held, Packing, Pending, Entered, RectTable.Valid, Search, Ushort, Valid, Core, Freed;
      hide Place;
      hide Boxed, Packed, KeptFor, PlacesOf, StaleSlots, Fits, RoomFor, BoxesArea, TooLarge, Covered, Cells, Blockish;
      BaseTargets();
      ghost var f := Adding(setup, Stored(), w, h);
      TooMuch(w, h);
      var packed, x, y := FindRoom(w, h);
      if !packed {
        id := INVALID;
        BaseTargets();
        EnteredNothing(Held(), Held());
        return;
      }
      SpotWithin(f, x, y, w, h);
      id := EnterRect(Rect(Ushort(x), Ushort(y), Ushort(w), Ushort(h)), f);
    }

    /** The texture is no larger than it may get. */
    predicate InLimits()
      reads this`texData
    {
      texData.width <= setup.maxWidth && texData.height <= setup.maxHeight
    }

    /** The rectangle of an id. */
    function RectOf(id: int): Rect
      reads table`index, table`rects
    {
      match if IndexOf(id) < |table.index| then PlaceOf(table.index[IndexOf(id)], table.rects) else None
      case None => Rect(0, 0, 0, 0)
      case Some(r) => r
    }

    /** An id that leads to the spot that was found, with every other rectangle where it was. */
    ghost predicate Handed(id: int, f: Found, w: nat, h: nat)
      requires f.spot.Some? && texData.Shape()
      reads this`texData, this`glyphs, this`maxRectWidth, this`maxRectHeight, this`lock
      reads packer, table, texData.pixels
    {
      && var i, r := IndexOf(id), Rect(f.spot.value.0, f.spot.value.1, w, h);
      && table.Resolves(id) && RectOf(id) == r
      && i <= |f.store.places| && Stored() == Packed(f, i, w, h, setup.padding)
      && (Fits(Stored(), i, r) <==> RoomFor(f.store, r))
      && (Inside(r, texData.width, texData.height) ==> Cells()[i].Some? && Blockish(Cells()[i].value.1, w, h))
    }

    lemma SpotWithin(f: Found, x: nat, y: nat, w: nat, h: nat)
      requires w > 0 && h > 0 && f.spot == Some((x, y)) && Stored() == Boxed(f, w + setup.padding, h + setup.padding)
      requires Packing(packer.boxes, packer.width, packer.height) && f.store.target.0 <= 0x1_0000
        && f.store.target.1 <= 0x1_0000
      ensures x <= 0xFFFF && y <= 0xFFFF
    {
      hide PlacesOf, StaleSlots;
      LastInside(packer.boxes, packer.width, packer.height);
    }

    /** With too much area there is no spot, unless the atlas gets stuck. */
    lemma TooMuch(w: nat, h: nat)
      requires Usable()
      ensures Core() && Fixed() && texData.width > 0 && texData.height > 0
      ensures InLimits() && TooLarge(setup, Stored(), w, h) ==>
                var f := Adding(setup, Stored(), w, h); f.spot == None || f.store.locked
    {
      hide AreaOf, Sizes, Packing, BoxesArea, RectTable.Valid, GlyphsOk, DistinctGlyphs, InTexture, UsedCount;
      hide LockStep, Search;
      hide PlacesOf, StaleSlots, RectTable.Linked;
      if lock {
        SearchNow(setup, Asked(Stored(), w, h), w, h, 3);
      } else if texData.width <= setup.maxWidth && texData.height <= setup.maxHeight {
        SurfaceLeft();
        var asked := Asked(Stored(), w, h);
        FewerArea(Pruned(asked).places, asked.places, setup.padding);
        assert Pruned(asked).places == Pruned(Stored()).places;
        if TooLarge(setup, asked, w, h) {
          TooMuchArea(setup, asked, w, h, 3);
        }
      }
    }

    /** The rectangle whose box was packed at the spot enters the table. */
    method EnterRect(r: Rect, ghost f: Found) returns (id: int)
      requires Core() && 0 < r.w <= 0xFFFF && 0 < r.h <= 0xFFFF && (table.freeStart < 0 ==> |table.index| < INDEX_RANGE)
      requires f.spot == Some((r.x, r.y)) && Stored() == Boxed(f, r.w + setup.padding, r.h + setup.padding)
      requires 0 < f.store.target.0 <= 0x1_0000 && 0 < f.store.target.1 <= 0x1_0000
      requires Packing(packer.boxes, packer.width, packer.height) && table.packedSurface == BoxesArea(f.store.boxes)
      requires if lock then texData.wantDestroyNextFrame
          else Pending(Rect(r.x, r.y, r.w + setup.padding, r.h + setup.padding))
      modifies table
      ensures Usable() && id != INVALID && Entered(old(Held()), Held(), id) && Handed(id, f, r.w, r.h)
      ensures Unclaimed(glyphs, IndexOf(id)) && (!lock ==> Fits(Stored(), IndexOf(id), RectOf(id)))
    {
      hide Packing, LockStep, Fits, RoomFor, PictureOf, PlacesOf, GlyphsOk, DistinctGlyphs, InTexture, Unclaimed;
      hide Issued, Block, Blockish;
      hide Targets, FreeList, Generations, UsedCount, LiveArea, Sizes, Placed, IndexOf, GenerationOf, StaleSlots;
      hide BoxesArea, Bares;
      ghost var index, rects, boxes, box :=
          table.index, table.rects, f.store.boxes, Rect(r.x, r.y, r.w + setup.padding, r.h + setup.padding);
      id := table.Insert(r);
      ghost var i := IndexOf(id);
      EnteredCore(index, rects, i, r);
      EnteredPicture(texData, index, rects, i, table.index[i], r);
      UnusedUnclaimed(glyphs, index, rects, i, uvScale);
      GenerationsSize(index, old(table.discards));
      AreaMore(boxes, box);
      HandedNow(id, f, r, index, rects);
      if !lock {
        EnteredPlaces(index, rects, boxes, box, i, table.index[i], r, setup.padding, texData.width, texData.height);
        FitsWhenValid(i);
      }
    }

    lemma HandedNow(id: int, f: Found, r: Rect, index: seq<Entry>, rects: seq<Rect>)
      requires texData.Shape() && table.Resolves(id) && Targets(index, rects)
      requires var i := IndexOf(id);
               && i <= |index| && (i < |index| ==> !index[i].used) && table.rects == rects + [r]
               && table.index == Placed(index, i, table.index[i]) && table.index[i].target == |rects|
      requires f.spot == Some((r.x, r.y))
      requires Stored().(places := PlacesOf(index, rects)) == Boxed(f, r.w + setup.padding, r.h + setup.padding)
      ensures Handed(id, f, r.w, r.h)
    {
      hide Targets, Fits, RoomFor, Shown, PlacesOf, StaleSlots;
      var i := IndexOf(id);
      PlacesEntered(index, rects, i, table.index[i], r);
      FitsExactly(f, i, r.w, r.h, setup.padding);
      EnteredPicture(texData, index, rects, i, table.index[i], r);
    }

    lemma EnteredCore(index: seq<Entry>, rects: seq<Rect>, i: nat, r: Rect)
      requires i < |table.index| && i <= |index| && (i < |index| ==> !index[i].used) && table.index[i].used
      requires table.index == Placed(index, i, table.index[i]) && table.rects == rects + [r]
      requires Fixed() && texData.Shape() && 0 < texData.width <= 0x1_0000 && 0 < texData.height <= 0x1_0000
      requires uvScale == Scale(1.0 / texData.width as real, 1.0 / texData.height as real) && table.Linked()
      requires UsedCount(index) + table.discardedCount == |rects| && GlyphsOk(glyphs, index, rects, uvScale)
        && DistinctGlyphs(glyphs)
      ensures Core()
    {
      hide GlyphsOk, DistinctGlyphs, Targets, FreeList, Generations;
      EnteredGlyphs(glyphs, index, rects, i, table.index[i], r, uvScale);
      UsedMore(index, i, table.index[i]);
    }

    lemma FitsWhenValid(i: nat)
      requires Valid() && i < |table.index| && table.index[i].used
      ensures 0 <= table.index[i].target < |table.rects| && Fits(Stored(), i, table.rects[table.index[i].target])
    {
      hide Packing, LockStep, GlyphsOk, DistinctGlyphs, Generations, FreeList, UsedCount, LiveArea, StaleSlots;
      hide BoxesArea;
      OthersApart(table.index, table.rects, packer.boxes, i, table.padding, texData.width, texData.height);
    }

    /** Loads a visible glyph: packs its rectangle and records it with the rectangle's texture
        coordinates. */
    method AddGlyph(w: nat, h: nat) returns (ok: bool)
      requires Usable() && 0 < w <= 0xFFFF && 0 < h <= 0xFFFF
      requires table.freeStart < 0 ==> |table.index| < INDEX_RANGE
      modifies this, packer, table, texData`wantDestroyNextFrame
      ensures Usable() && (old(Listed()) ==> Listed())
      ensures var f := Adding(setup, old(Stored()), w, h);
              && (ok <==> f.spot.Some?)
              && (!ok ==> Stored() == f.store && Held() == old(KeptFor(setup, Stored(), Held(), w, h)))
              && (ok ==>
                    && glyphs != []
                    && var g := glyphs[|glyphs| - 1];
                    && g.packId != INVALID && !g.stale && Handed(g.packId, f, w, h)
                    && (!lock ==> Fits(Stored(), IndexOf(g.packId), RectOf(g.packId)))
                    && Entered(old(KeptFor(setup, Stored(), Held(), w, h)),
                        Held().(glyphs := Bares(glyphs[..|glyphs| - 1])), g.packId))
      ensures texData == old(texData) || (fresh(texData) && fresh(texData.pixels))
    {
      hide Listed, Core, Valid, Packable, Packing, Fits, RoomFor, Entered, RectTable.Valid, StaleSlots, Unclaimed;
      hide Bares, PlacesOf, Adding, Packed;
      hide Blockish, Cells, KeptFor, TooLarge;
      BaseTargets();
      ghost var held := KeptFor(setup, Stored(), Held(), w, h);
      var id := AddRect(w, h);
      ok := id != INVALID;
      BaseTargets();
      if ok {
        RecordGlyph(id);
        BaseTargets();
      } else {
        EnteredNothing(held, Held());
      }
    }

    /** Records a glyph that shows the rectangle of an id. */
    method RecordGlyph(id: int)
      requires Usable() && table.Resolves(id) && Unclaimed(glyphs, IndexOf(id))
      modifies this`glyphs
      ensures Usable() && StaleSlots(glyphs) == StaleSlots(old(glyphs)) && |glyphs| == |old(glyphs)| + 1
      ensures glyphs[..|glyphs| - 1] == old(glyphs) && glyphs[|glyphs| - 1].packId == id && !glyphs[|glyphs| - 1].stale
    {
      hide DistinctGlyphs, Packing, LockStep, RectTable.Valid, StaleSlots, Unclaimed, InTexture, GlyphsOk, Targets;
      hide FreeList, Generations;
      hide UsedCount, BoxesArea;
      TargetAt(table.index, table.rects, IndexOf(id));
      var r := table.rects[table.index[IndexOf(id)].target];
      var g := Placement(Glyph(id, 0.0, 0.0, 0.0, 0.0, false), r, uvScale);
      GlyphAdded(glyphs, table.index, table.rects, uvScale, g, r);
      StaleMore(glyphs, g);
      ghost var gs := glyphs;
      glyphs := glyphs + [g];
      assert glyphs[..|glyphs| - 1] == gs;
      assert StaleSlots(gs) + {} == StaleSlots(gs);
    }

    /** Fills the rectangle of an id: its pixels change, and those of no other id. */
    method Paint(id: int, colour: nat)
      requires Valid() && table.Resolves(id)
      modifies texData.pixels
      ensures Valid() && Stored() == old(Stored())
      ensures var r := RectOf(id);
              Held() == old(Held()).(cells := old(Held()).cells[IndexOf(id) := Some((GenerationOf(id),
                  Solid(r.w, r.h, colour)))])
    {
      hide LockStep, Packing, GlyphsOk, DistinctGlyphs, Targets, FreeList, Generations, UsedCount, LiveArea, Bares;
      hide BoxesArea, StaleSlots;
      TargetAt(table.index, table.rects, IndexOf(id));
      var r := table.rects[table.index[IndexOf(id)].target];
      OthersApart(table.index, table.rects, packer.boxes, IndexOf(id), table.padding, texData.width, texData.height);
      BlockFill(texData, r, colour);
    }

    lemma ValidWhenSteady()
      requires Fixed() && Steady(glyphs) && 0 < texData.width <= 0x1_0000 && 0 < texData.height <= 0x1_0000
      requires uvScale == Scale(1.0 / texData.width as real, 1.0 / texData.height as real)
      requires packer.width == texData.width && packer.height == texData.height
      requires Packing(packer.boxes, packer.width, packer.height) && table.packedSurface == BoxesArea(packer.boxes)
      ensures Valid()
    {
      hide LockStep, InTexture, Packing, GlyphsOk, DistinctGlyphs, FreeList, Generations, Targets, UsedCount;
      hide LiveArea, BoxesArea;
    }

    lemma SteadyWithout(gs: seq<Glyph>, p: nat)
      requires Steady(gs) && p < |gs| && gs[p].packId == INVALID
      ensures Steady(Without(gs, p))
    {
    }
  }

  lemma UnusedUnclaimed(gs: seq<Glyph>, index: seq<Entry>, rects: seq<Rect>, i: nat, s: Scale)
    requires GlyphsOk(gs, index, rects, s) && (i < |index| ==> !index[i].used)
    ensures Unclaimed(gs, i)
  {
    hide Placement;
  }

  lemma GlyphAdded(gs: seq<Glyph>, index: seq<Entry>, rects: seq<Rect>, s: Scale, g: Glyph, r: Rect)
    requires GlyphsOk(gs, index, rects, s) && DistinctGlyphs(gs) && Unclaimed(gs, IndexOf(g.packId))
    requires IdResolves(index, g.packId) && 0 <= index[IndexOf(g.packId)].target < |rects|
    requires r == rects[index[IndexOf(g.packId)].target] && g == Placement(g, r, s)
    ensures GlyphsOk(gs + [g], index, rects, s) && DistinctGlyphs(gs + [g])
  {
    hide Placement;
  }

  lemma EnteredPlaces(
      index: seq<Entry>, rects: seq<Rect>, boxes: seq<Rect>, box: Rect, i: nat, e: Entry, r: Rect, pad: nat,
          width: nat, height: nat)
    requires Targets(index, rects) && i <= |index| && (i < |index| ==> !index[i].used) && e.used && e.target == |rects|
    requires InTexture(index, rects, width, height) && LockStep(rects, boxes, pad)
    requires box == Rect(r.x, r.y, r.w + pad, r.h + pad) && Packing(boxes + [box], width, height) && r.w > 0 && r.h > 0
    ensures InTexture(Placed(index, i, e), rects + [r], width, height) && LockStep(rects + [r], boxes + [box], pad)
  {
    hide Packing;
    LastInside(boxes + [box], width, height);
  }

  lemma UsedMore(index: seq<Entry>, i: nat, e: Entry)
    requires i <= |index| && (i < |index| ==> !index[i].used) && e.used
    ensures UsedCount(Placed(index, i, e)) == UsedCount(index) + 1
  {
    if i == |index| {
      assert Placed(index, i, e)[..|index|] == index;
    } else {
      UsedCountUpdate(index, i, e);
    }
  }

  lemma PlacesEntered(index: seq<Entry>, rects: seq<Rect>, i: nat, e: Entry, r: Rect)
    requires Targets(index, rects) && i <= |index| && (i < |index| ==> !index[i].used) && e.used && e.target == |rects|
    ensures PlacesOf(Placed(index, i, e), rects + [r]) == Placed(PlacesOf(index, rects), i, Some(r))
    ensures i < |index| ==> PlacesOf(index, rects)[i] == None
  {
  }

  lemma AreaMore(boxes: seq<Rect>, box: Rect)
    ensures BoxesArea(boxes + [box]) == BoxesArea(boxes) + box.w * box.h
  {
    assert (boxes + [box])[..|boxes|] == boxes;
  }

  lemma EnteredPicture(t: TextureData, index: seq<Entry>, rects: seq<Rect>, i: nat, e: Entry, r: Rect)
    requires t.Shape() && Targets(index, rects)
    requires i <= |index| && (i < |index| ==> !index[i].used) && e.used && e.target == |rects|
    ensures var cells, cells' := PictureOf(t, index, rects), PictureOf(t, Placed(index, i, e), rects + [r]);
            && i < |cells'| && |cells| <= |cells'| == Max(|cells|, i + 1) && (i < |cells| ==> cells[i] == None)
            && cells'[i] == Some((e.generation, Shown(t, r)))
            && (Inside(r, t.width, t.height) ==> Blockish(Shown(t, r), r.w, r.h))
            && forall j :: 0 <= j < |cells| && j != i ==> cells'[j] == cells[j]
  {
  }

  lemma EnteredGlyphs(gs: seq<Glyph>, index: seq<Entry>, rects: seq<Rect>, i: nat, e: Entry, r: Rect, s: Scale)
    requires GlyphsOk(gs, index, rects, s) && i <= |index| && (i < |index| ==> !index[i].used)
    ensures GlyphsOk(gs, Placed(index, i, e), rects + [r], s)
  {
    hide Placement;
  }

  /** `index'` and `rects'` are `index` and `rects` after entry `i` was discarded. */
  ghost predicate Discarded(index: seq<Entry>, rects: seq<Rect>, index': seq<Entry>, rects': seq<Rect>, i: nat) {
    && |index| == |index'| && i < |index| && index[i].used && !index'[i].used
    && 0 <= index[i].target < |rects| && rects' == rects[index[i].target := rects[index[i].target].(w := 0, h := 0)]
    && forall j :: 0 <= j < |index| && j != i ==> index'[j] == index[j]
  }

  lemma DiscardPlaces(index: seq<Entry>, rects: seq<Rect>, index': seq<Entry>, rects': seq<Rect>, i: nat, width: nat,
      height: nat, boxes: seq<Rect>, pad: nat)
    requires Targets(index, rects) && Discarded(index, rects, index', rects', i)
    requires InTexture(index, rects, width, height) && LockStep(rects, boxes, pad)
    ensures InTexture(index', rects', width, height) && LockStep(rects', boxes, pad)
  {
  }

  lemma DiscardPicture(t: TextureData, index: seq<Entry>, rects: seq<Rect>, index': seq<Entry>, rects': seq<Rect>,
      i: nat)
    requires t.Shape() && Targets(index, rects) && Discarded(index, rects, index', rects', i)
    ensures PictureOf(t, index', rects') == PictureOf(t, index, rects)[i := None]
    ensures PlacesOf(index', rects') == PlacesOf(index, rects)[i := None]
  {
    forall j | 0 <= j < |index| && j != i && index[j].used ensures rects'[index[j].target] == rects[index[j].target] {
      assert index[j].target != index[i].target;
    }
  }

  lemma DiscardOther(gs: seq<Glyph>, index: seq<Entry>, rects: seq<Rect>, index': seq<Entry>, rects': seq<Rect>,
      i: nat, s: Scale)
    requires GlyphsOk(gs, index, rects, s) && Unclaimed(gs, i) && Targets(index, rects)
      && Discarded(index, rects, index', rects', i)
    ensures GlyphsOk(gs, index', rects', s)
  {
    hide Placement;
    forall k | 0 <= k < |gs| && gs[k].packId != INVALID
      ensures rects'[index'[IndexOf(gs[k].packId)].target] == rects[index[IndexOf(gs[k].packId)].target]
    {
      assert index[IndexOf(gs[k].packId)].target != index[i].target;
    }
  }

  /** A glyph whose rectangle is gone has nothing to show. */
  lemma ClaimedLost(gs: seq<Glyph>, index: seq<Entry>, rects: seq<Rect>, i: nat, s: Scale)
    requires !Unclaimed(gs, i) && i < |index| && !index[i].used
    ensures !GlyphsOk(gs, index, rects, s)
  {
  }

  lemma DiscardGlyph(gs: seq<Glyph>, p: nat, index: seq<Entry>, rects: seq<Rect>, index': seq<Entry>,
      rects': seq<Rect>, s: Scale)
    requires p < |gs| && gs[p].packId != INVALID && GlyphsOk(gs, index, rects, s) && DistinctGlyphs(gs)
    requires Targets(index, rects) && Discarded(index, rects, index', rects', IndexOf(gs[p].packId))
    ensures GlyphsOk(Without(gs, p), index', rects', s) && DistinctGlyphs(Without(gs, p))
  {
    hide Placement;
    var gs' := Without(gs, p);
    assert forall k :: 0 <= k < |gs'| ==> gs'[k] == gs[if k < p then k else k + 1];
    var i := IndexOf(gs[p].packId);
    forall k | 0 <= k < |gs'| && gs'[k].packId != INVALID
      ensures IndexOf(gs'[k].packId) != i && IdResolves(index', gs'[k].packId)
      ensures rects'[index'[IndexOf(gs'[k].packId)].target] == rects[index[IndexOf(gs'[k].packId)].target]
    {
      assert index[IndexOf(gs'[k].packId)].target != index[i].target;
    }
  }

  lemma PackAllNext(s: Setup, width: nat, height: nat, a: Attempt, w: nat, h: nat, rest: seq<Size>)
    requires a.ok
    ensures var b := PackOne(s, width, height, a, w, h);
            PackAll(s, width, height, a, [(w, h)] + rest) == if b.ok then PackAll(s, width, height, b, rest) else b
  {
    assert ([(w, h)] + rest)[1..] == rest;
  }

  lemma NothingLeft(s: Setup, width: nat, height: nat, a: Attempt, places: seq<Option<Rect>>)
    requires |places| == 0
    ensures PackAll(s, width, height, a, Sizes(places)) == a
  {
  }

  lemma {:induction false} AreaOfPlaces(index: seq<Entry>, rects: seq<Rect>, pad: nat)
    ensures LiveArea(index, rects, pad) == AreaOf(Sizes(PlacesOf(index, rects)), pad)
  {
    hide AreaOf, LiveArea;
    NoArea(rects, pad);
    if index != [] {
      LiveAreaFront(index, rects, pad);
      AreaOfPlaces(index[1..], rects, pad);
      FirstArea(PlacesOf(index, rects), pad);
      assert PlacesOf(index, rects)[1..] == PlacesOf(index[1..], rects);
    }
  }

  lemma {:induction false} LiveAreaFront(index: seq<Entry>, rects: seq<Rect>, pad: nat)
    requires index != []
    ensures LiveArea(index, rects, pad) == Area(index[0], rects, pad) + LiveArea(index[1..], rects, pad)
  {
    if |index| > 1 {
      LiveAreaFront(index[..|index| - 1], rects, pad);
      assert index[..|index| - 1][1..] == index[1..][..|index| - 2];
    }
  }

  lemma NoArea(rects: seq<Rect>, pad: nat)
    ensures LiveArea([], rects, pad) == 0 && AreaOf([], pad) == 0
  {
  }

  /** A rectangle that was given up; no used entry has one. */
  predicate Emptied(index0: seq<Entry>, rects0: seq<Rect>, k: nat) {
    k < |index0| && 0 <= index0[k].target < |rects0| && rects0[index0[k].target].w == 0
        && rects0[index0[k].target].h == 0
  }

  lemma HalfwaySize(index0: seq<Entry>, index: seq<Entry>, rects: seq<Rect>, k: nat)
    requires Halfway(index0, index, rects, k)
    ensures |index| == |index0|
  {
  }

  lemma HalfwayAhead(index0: seq<Entry>, rects0: seq<Rect>, index: seq<Entry>, rects: seq<Rect>, k: nat)
    requires Halfway(index0, index, rects, k) && k < |index| && Targets(index0, rects0)
    ensures index0[k] == index[k] && (index[k].used ==> !Emptied(index0, rects0, k))
    ensures !index[k].used ==> PlacesOf(index0, rects0)[k] == None
  {
  }

  lemma CopiedSkip(t0: TextureData, index0: seq<Entry>, rects0: seq<Rect>, t: TextureData, index: seq<Entry>,
      rects: seq<Rect>, k: nat)
    requires t0.Shape() && t.Shape() && |index| == |index0| && k < |index| && !index[k].used
    requires InTexture(index0, rects0, t0.width, t0.height)
    requires Copied(t0, index0, rects0, t, index, rects, k)
    ensures Copied(t0, index0, rects0, t, index, rects, k + 1)
  {
  }

  /** The box packed last keeps clear of the rectangles packed before. */
  lemma LastDisjoint(rects: seq<Rect>, boxes: seq<Rect>, r: Rect, box: Rect, pad: nat, width: nat, height: nat)
    requires LockStep(rects + [r], boxes + [box], pad) && Packing(boxes + [box], width, height)
    requires r.w > 0 && forall j :: 0 <= j < |rects| ==> rects[j].w > 0
    ensures forall j :: 0 <= j < |rects| ==> Inside(rects[j], width, height) && Disjoint(rects[j], r)
  {
    forall j | 0 <= j < |rects| ensures Inside(rects[j], width, height) && Disjoint(rects[j], r) {
      assert (rects + [r])[j] == rects[j] && (boxes + [box])[j] == boxes[j];
      assert (rects + [r])[|rects|] == r && (boxes + [box])[|boxes|] == box;
      assert Disjoint((boxes + [box])[j], (boxes + [box])[|boxes|]);
    }
  }

  /** The rectangles in use keep clear of each other, as their boxes do. */
  lemma OthersApart(index: seq<Entry>, rects: seq<Rect>, boxes: seq<Rect>, i: nat, pad: nat, width: nat, height: nat)
    requires Targets(index, rects) && LockStep(rects, boxes, pad) && Packing(boxes, width, height)
    requires i < |index| && index[i].used
    ensures 0 <= index[i].target < |rects|
    ensures forall j :: 0 <= j < |index| && j != i && index[j].used ==>
              0 <= index[j].target < |rects| && Disjoint(rects[index[j].target], rects[index[i].target])
  {
    forall j | 0 <= j < |index| && j != i && index[j].used
      ensures 0 <= index[j].target < |rects| && Disjoint(rects[index[j].target], rects[index[i].target])
    {
      BoxesApart(boxes, index[j].target, index[i].target, width, height);
    }
  }

  lemma BoxesApart(boxes: seq<Rect>, a: nat, b: nat, width: nat, height: nat)
    requires Packing(boxes, width, height) && a < |boxes| && b < |boxes| && a != b
    ensures Disjoint(boxes[a], boxes[b])
  {
  }

  lemma LastInside(boxes: seq<Rect>, width: nat, height: nat)
    requires boxes != [] && Packing(boxes, width, height)
    ensures Inside(boxes[|boxes| - 1], width, height)
  {
  }
}
