/** A run that gets an atlas stuck although everything in it is in place, and hands out an id whose
    rectangle lies over two others. Rectangles are packed anew in the order of their slots, not in
    the order in which they arrived, and the packer is left with what it made of that. */
module AtlasStuck {
  import opened Options
  import opened Textures
  import opened AtlasRects
  import opened AtlasPacking
  import opened AtlasContents
  import opened Atlases
  import opened AtlasRuns

  // ----------------------------------------------------------------- a packer

  /** How high the boxes reach that stand over the columns from `x` to `x + w`. */
  function Top(boxes: seq<Rect>, x: nat, w: nat): nat {
    if boxes == [] then 0
    else
      var b, t := boxes[|boxes| - 1], Top(boxes[..|boxes| - 1], x, w);
      if b.x < x + w && x < b.x + b.w then Max(t, b.y + b.h) else t
  }

  /** The column up to `last` where a box of width `w` can go lowest, and of those the first. */
  function Lowest(boxes: seq<Rect>, last: nat, w: nat): nat {
    if last == 0 then 0
    else
      var x := Lowest(boxes, last - 1, w);
      if Top(boxes, last, w) < Top(boxes, x, w) then last else x
  }

  /** A packer that lets boxes rest on those below, as low as possible. */
  function Skyline(width: nat, height: nat, boxes: seq<Rect>, w: nat, h: nat): Option<(nat, nat)> {
    if w > width then None
    else
      var x := Lowest(boxes, width - w, w);
      var y := Top(boxes, x, w);
      if y + h <= height then Some((x, y)) else None
  }

  lemma {:induction false} LowestWithin(boxes: seq<Rect>, last: nat, w: nat)
    ensures Lowest(boxes, last, w) <= last
  {
    if last > 0 {
      LowestWithin(boxes, last - 1, w);
    }
  }

  /** Column `x` is the first of those where a box of width `w` can go lowest. */
  ghost predicate First(boxes: seq<Rect>, last: nat, w: nat, x: nat) {
    && x <= last
    && forall k: nat :: k <= last ==>
        if k < x then Top(boxes, k, w) > Top(boxes, x, w) else Top(boxes, k, w) >= Top(boxes, x, w)
  }

  lemma {:induction false} LowestIs(boxes: seq<Rect>, last: nat, w: nat, x: nat)
    requires First(boxes, last, w, x)
    ensures Lowest(boxes, last, w) == x
  {
    hide Top;
    if last > x {
      LowestIs(boxes, last - 1, w, x);
    } else if last > 0 {
      LowestWithin(boxes, last - 1, w);
    }
  }

  lemma TopNext(boxes: seq<Rect>, b: Rect, x: nat, w: nat)
    ensures Top(boxes + [b], x, w) ==
            if b.x < x + w && x < b.x + b.w then Max(Top(boxes, x, w), b.y + b.h) else Top(boxes, x, w)
  {
    assert (boxes + [b])[..|boxes|] == boxes;
  }

  /** How far up one box more reaches. */
  function Over(t: nat, b: Rect, x: nat, w: nat): nat {
    if b.x < x + w && x < b.x + b.w then Max(t, b.y + b.h) else t
  }

  /** Up to five boxes, one after another. */
  lemma Tops(a: Rect, b: Rect, c: Rect, d: Rect, e: Rect, x: nat, w: nat)
    ensures Top([], x, w) == 0 && Top([a], x, w) == Over(0, a, x, w)
    ensures Top([a, b], x, w) == Over(Top([a], x, w), b, x, w)
    ensures Top([a, b, c], x, w) == Over(Top([a, b], x, w), c, x, w)
    ensures Top([a, b, c, d], x, w) == Over(Top([a, b, c], x, w), d, x, w)
    ensures Top([a, b, c, d, e], x, w) == Over(Top([a, b, c, d], x, w), e, x, w)
  {
    hide Top;
    assert Top([], x, w) == 0 by { EmptyTop(x, w); }
    TopNext([], a, x, w);
    TopNext([a], b, x, w);
    TopNext([a, b], c, x, w);
    TopNext([a, b, c], d, x, w);
    TopNext([a, b, c, d], e, x, w);
    assert [] + [a] == [a] && [a] + [b] == [a, b] && [a, b] + [c] == [a, b, c];
    assert [a, b, c] + [d] == [a, b, c, d] && [a, b, c, d] + [e] == [a, b, c, d, e];
  }

  lemma EmptyTop(x: nat, w: nat)
    ensures Top([], x, w) == 0
  {
  }

  // ---------------------------------------------------------------- the story

  /** Textures of 512 by 512 pixels, with the usual padding. */
  const SIDE: nat := 512
  const SMALL: Setup := Setup(1, 512, 512, 512, 512, Skyline)

  /** The blocks that every atlas starts with, for lines and for mouse cursors; then a rectangle that
      is given up again, and two that take the room to its left and to its right. */
  const LINES: Rect := Rect(0, 0, 34, 33)
  const CURSORS: Rect := Rect(35, 0, 245, 27)
  const GIVEN_UP: Rect := Rect(35, 28, 299, 149)
  const LEFT: Rect := Rect(0, 178, 249, 255)
  const RIGHT: Rect := Rect(250, 178, 255, 255)

  /** Where the left one goes in a repack, and where the rectangle that gets the atlas stuck goes. */
  const LEFT_ANEW: Rect := Rect(35, 28, 249, 255)
  const LATEST: Rect := Rect(0, 284, 255, 199)

  const STORY: seq<AtlasOp> := [
    AddCustomRect(34, 33), AddCustomRect(245, 27), AddCustomRect(299, 149), RemoveCustomRect(2),
    AddCustomRect(249, 255), AddCustomRect(255, 255), AddCustomRect(255, 199)]

  /** A rectangle with its padding. */
  function Box(r: Rect): Rect { Rect(r.x, r.y, r.w + 1, r.h + 1) }

  /** The boxes in the order of their arrival. */
  const ALL: seq<Rect> := [Box(LINES), Box(CURSORS), Box(GIVEN_UP), Box(LEFT), Box(RIGHT)]
  /** The boxes that a repack makes before it fails. */
  const ANEW: seq<Rect> := [Box(LINES), Box(CURSORS), Box(LEFT_ANEW)]

  /** The rectangle's spot among the given boxes. */
  ghost predicate Goes(boxes: seq<Rect>, r: Rect) {
    Place(Skyline, SIDE, SIDE, boxes, r.w + 1, r.h + 1) == Some((r.x, r.y))
  }

  lemma GoesTo(boxes: seq<Rect>, r: Rect)
    requires r.x + r.w < SIDE && r.y + r.h < SIDE && Clear(boxes, Box(r))
    requires First(boxes, SIDE - r.w - 1, r.w + 1, r.x) && Top(boxes, r.x, r.w + 1) == r.y
    ensures Goes(boxes, r)
  {
    hide Top, First;
    LowestIs(boxes, SIDE - r.w - 1, r.w + 1, r.x);
  }

  /** Tops of the boxes in the story over the columns from `x` on. */
  lemma AllTops(x: nat, w: nat)
    ensures Top([], x, w) == 0 && Top(ALL[..1], x, w) == Over(0, ALL[0], x, w)
    ensures Top(ALL[..2], x, w) == Over(Top(ALL[..1], x, w), ALL[1], x, w)
    ensures Top(ALL[..3], x, w) == Over(Top(ALL[..2], x, w), ALL[2], x, w)
    ensures Top(ALL[..4], x, w) == Over(Top(ALL[..3], x, w), ALL[3], x, w)
    ensures Top(ALL, x, w) == Over(Top(ALL[..4], x, w), ALL[4], x, w)
    ensures Top(ANEW, x, w) == Over(Top(ALL[..2], x, w), ANEW[2], x, w)
  {
    hide Top, Over;
    Tops(ALL[0], ALL[1], ALL[2], ALL[3], ALL[4], x, w);
    Tops(ALL[0], ALL[1], ANEW[2], ALL[3], ALL[4], x, w);
    assert ALL[..1] == [ALL[0]] && ALL[..2] == [ALL[0], ALL[1]] && ALL[..3] == [ALL[0], ALL[1], ALL[2]];
    assert ALL[..4] == [ALL[0], ALL[1], ALL[2], ALL[3]] && ALL == [ALL[0], ALL[1], ALL[2], ALL[3], ALL[4]];
    assert ANEW == [ALL[0], ALL[1], ANEW[2]];
  }

  /** The same in numbers, for the first `n` boxes. */
  function Reach(n: nat, x: nat, w: nat): nat
    requires n <= 5
  {
    var a := Over(0, ALL[0], x, w);
    var b := Over(a, ALL[1], x, w);
    var c := Over(b, ALL[2], x, w);
    var d := Over(c, ALL[3], x, w);
    match n case 0 => 0 case 1 => a case 2 => b case 3 => c case 4 => d case _ => Over(d, ALL[4], x, w)
  }

  lemma Reaches(n: nat, x: nat, w: nat)
    requires n <= 5
    ensures Top(ALL[..n], x, w) == Reach(n, x, w) && Top(ANEW, x, w) == Over(Reach(2, x, w), ANEW[2], x, w)
  {
    hide Top, Over;
    AllTops(x, w);
    assert ALL[..0] == [] && ALL[..5] == ALL;
  }

  /** The five come to their spots in the order of their arrival, and then there is no room for the
      latest. */
  lemma Arrivals()
    ensures Goes(ALL[..0], LINES) && Goes(ALL[..1], CURSORS) && Goes(ALL[..2], GIVEN_UP)
    ensures Goes(ALL[..3], LEFT) && Goes(ALL[..4], RIGHT)
    ensures Place(Skyline, SIDE, SIDE, ALL[..5], LATEST.w + 1, LATEST.h + 1) == None
  {
    hide Goes, Place, Skyline, First;
    Arrives(0, LINES);
    Arrives(1, CURSORS);
    Arrives(2, GIVEN_UP);
    Arrives(3, LEFT);
    Arrives(4, RIGHT);
    var boxes, w, h := ALL[..5], LATEST.w + 1, LATEST.h + 1;
    forall x: nat | x + w <= SIDE ensures Top(boxes, x, w) + h > SIDE {
      Reaches(5, x, w);
    }
    NoSpot(boxes, w, h);
  }

  lemma Arrives(n: nat, r: Rect)
    requires n < 5 && r == [LINES, CURSORS, GIVEN_UP, LEFT, RIGHT][n]
    ensures Goes(ALL[..n], r)
  {
    hide Top;
    var boxes, w := ALL[..n], r.w + 1;
    forall x: nat ensures Top(boxes, x, w) == Reach(n, x, w) {
      Reaches(n, x, w);
    }
    GoesTo(boxes, r);
  }

  /** Packed anew, the left one comes to lie elsewhere, there is no room for the right one any more,
      and room for the latest where the left one was. */
  lemma Anew()
    ensures Goes(ALL[..2], LEFT_ANEW) && Goes(ANEW, LATEST)
    ensures Place(Skyline, SIDE, SIDE, ANEW, RIGHT.w + 1, RIGHT.h + 1) == None
  {
    hide Top, Place, Skyline;
    forall x: nat, w: nat ensures Top(ALL[..2], x, w) == Reach(2, x, w)
        && Top(ANEW, x, w) == Over(Reach(2, x, w), ANEW[2], x, w) {
      Reaches(2, x, w);
    }
    GoesTo(ALL[..2], LEFT_ANEW);
    GoesTo(ANEW, LATEST);
    NoSpot(ANEW, RIGHT.w + 1, RIGHT.h + 1);
  }

  lemma NoSpot(boxes: seq<Rect>, w: nat, h: nat)
    requires w <= SIDE && forall x: nat :: x + w <= SIDE ==> Top(boxes, x, w) + h > SIDE
    ensures Place(Skyline, SIDE, SIDE, boxes, w, h) == None
  {
    hide Top, Lowest;
    LowestWithin(boxes, SIDE - w, w);
  }

  // ------------------------------------------------------------- its beginning

  /** The rectangles in use after `k` operations. */
  function Rects(k: nat): seq<Option<Rect>>
    requires k <= 6
  {
    match k
    case 0 => []
    case 1 => [Some(LINES)]
    case 2 => [Some(LINES), Some(CURSORS)]
    case 3 => [Some(LINES), Some(CURSORS), Some(GIVEN_UP)]
    case 4 => [Some(LINES), Some(CURSORS), None]
    case 5 => [Some(LINES), Some(CURSORS), Some(LEFT)]
    case _ => [Some(LINES), Some(CURSORS), Some(LEFT), Some(RIGHT)]
  }

  function FreeSlots(k: nat): seq<nat> { if k == 4 then [2] else [] }

  /** The slot that the next rectangle takes. */
  function Slot(k: nat): nat { match k case 4 => 2 case 5 => 3 case _ => k }

  /** How many boxes there are by then. */
  function Count(k: nat): nat { if k <= 3 then k else k - 1 }

  /** The story so far. */
  ghost predicate Told(b: State, k: nat)
    requires k <= 6
  {
    && Shapely(b) && !b.store.locked && b.store.width == b.store.height == SIDE && b.store.target == (SIDE, SIDE)
    && b.store.boxes == ALL[..Count(k)] && b.store.places == Rects(k) && b.store.stale == {}
    && b.content.free == FreeSlots(k) && b.content.glyphs == [] && (k == 3 ==> Leads(b.content, 2))
  }

  /** A rectangle for which there is room at once. */
  lemma Adds(b: State, c: State, id: int, r: Rect)
    requires Shapely(b) && !b.store.locked && b.store.target == (SIDE, SIDE) && Goes(b.store.boxes, r)
    requires Added(SMALL, b, c, id, r.w, r.h)
    ensures id != INVALID && IndexOf(id) == NextSlot(b.content) <= |b.store.places|
    ensures c.store.boxes == b.store.boxes + [Box(r)] && c.store.places == Placed(b.store.places, IndexOf(id), Some(r))
    ensures c.store.width == b.store.width && c.store.height == b.store.height && c.store.target == b.store.target
    ensures c.store.stale == b.store.stale && !c.store.locked
    ensures Entered(b.content, c.content, id) && Leads(c.content, id)
    ensures !Adding(SMALL, b.store, r.w, r.h).store.locked
  {
    hide Place, Skyline, Fits, Blockish, Issued, Search, Spaced, Freed, Placed, Inside;
    SearchNow(SMALL, Asked(b.store, r.w, r.h), r.w, r.h, 3);
    Enough();
  }

  lemma Enough()
    ensures Limits(SMALL) && SMALL.padding == 1 && SMALL.answer == Skyline
  {
  }

  lemma AddsNow(b: State, r: Rect)
    requires Shapely(b) && !b.store.locked && b.store.target == (SIDE, SIDE) && Goes(b.store.boxes, r)
    ensures !Adding(SMALL, b.store, r.w, r.h).store.locked
  {
    hide Place, Skyline, Search, Spaced;
    SearchNow(SMALL, Asked(b.store, r.w, r.h), r.w, r.h, 3);
  }

  /** The rectangles of the story that are added at once. */
  function Comes(k: nat): Rect {
    match k case 0 => LINES case 1 => CURSORS case 2 => GIVEN_UP case 4 => LEFT case _ => RIGHT
  }

  lemma ComesNext(k: nat)
    requires k < 6 && k != 3
    ensures Goes(ALL[..Count(k)], Comes(k)) && STORY[k] == AddCustomRect(Comes(k).w, Comes(k).h)
    ensures ALL[..Count(k)] + [Box(Comes(k))] == ALL[..Count(k + 1)]
  {
    hide Goes;
    Arrivals();
  }

  /** The first six operations are legal, and none of them gets stuck. */
  lemma Goes6(b: State, k: nat)
    requires k < 6 && Told(b, k)
    ensures Legal(b.content, STORY[k]) && !Stuck(SMALL, b, STORY[k])
  {
    hide Goes, Adding, Leads;
    if k != 3 {
      ComesNext(k);
      AddsNow(b, Comes(k));
    }
  }

  /** What they make of the story so far. */
  lemma TellOn(b: State, k: nat, c: State, id: int)
    requires k < 6 && Told(b, k) && Shapely(c) && Legal(b.content, STORY[k]) && Did(SMALL, b, STORY[k], c, id)
    ensures Told(c, k + 1)
    ensures k != 3 ==> Leads(c.content, id) && IndexOf(id) == Slot(k) && Entered(b.content, c.content, id)
  {
    hide Goes, Adding, Entered, Added;
    if k != 3 {
      var r := Comes(k);
      ComesNext(k);
      Adds(b, c, id, r);
      EnteredAt(b.content, c.content, id);
      assert Placed(Rects(k), Slot(k), Some(r)) == Rects(k + 1);
      if k == 2 {
        FirstId(c.content, id);
      }
    } else {
      assert IndexOf(2) == 2;
    }
  }

  lemma EnteredAt(b: Content, c: Content, id: int)
    requires Entered(b, c, id) && id != INVALID
    ensures IndexOf(id) == NextSlot(b) <= |b.cells| && c.glyphs == b.glyphs && c.free == if b.free == [] then []
        else b.free[1..]
    ensures IndexOf(id) < |c.discards| && |b.discards| == |b.cells| && Issued(c.discards, id)
    ensures IndexOf(id) == |b.cells| ==> c.discards[IndexOf(id)] == 0
    ensures forall j :: 0 <= j < |b.cells| && j != IndexOf(id) ==> j < |c.cells| && c.cells[j] == b.cells[j]
  {
    hide Issued, IndexOf;
  }

  lemma FirstId(c: Content, id: int)
    requires Leads(c, id) && IndexOf(id) == 2 < |c.discards| && Issued(c.discards, id) && c.discards[2] == 0
    ensures Leads(c, 2)
  {
    assert Generation(0) == 0;
  }

  /** The run goes through the story as far as it gets, which is its first six operations. */
  lemma {:induction false} StoryTold(n: nat, trail: seq<State>, ids: seq<int>, k: nat)
    requires n <= 7 && Trail(SMALL, STORY[..n], trail, ids) && Told(trail[0], 0) && k <= n && k <= 6
    ensures Told(trail[k], k)
  {
    hide Told, Moves, Shapely;
    if k > 0 {
      StoryTold(n, trail, ids, k - 1);
      MoveTold(trail[k - 1], k - 1, trail[k], ids[k - 1]);
    }
  }

  lemma MoveTold(b: State, k: nat, c: State, id: int)
    requires k < 6 && Told(b, k) && Shapely(c) && Moves(SMALL, b, STORY[k], c, id)
    ensures Told(c, k + 1)
    ensures k != 3 ==> Leads(c.content, id) && IndexOf(id) == Slot(k) && Entered(b.content, c.content, id)
  {
    hide Legal, Stuck, Did, Entered;
    Goes6(b, k);
    TellOn(b, k, c, id);
  }

  // ------------------------------------------------------------------- its end

  lemma Areas()
    ensures BoxesArea(ALL[..5]) == 182614 && AreaOf(Sizes(Rects(6)), 1) == 137614
  {
    var r := Rects(6);
    assert ALL[..5] == ALL && ALL[..4] == ALL[..5][..4] && ALL[..3] == ALL[..4][..3] && ALL[..2] == ALL[..3][..2]
      && ALL[..1] == ALL[..2][..1];
    assert BoxesArea(ALL[..1]) == 1190 && BoxesArea(ALL[..2]) == 8078 && BoxesArea(ALL[..3]) == 53078
      && BoxesArea(ALL[..4]) == 117078;
    RectSizes();
    var s := Sizes(r);
    assert AreaOf(s[3..], 1) == 65536 && s[2..][1..] == s[3..] && s[1..][1..] == s[2..];
    assert AreaOf(s[2..], 1) == 129536 && AreaOf(s[1..], 1) == 136424;
  }

  lemma RectSizes()
    ensures Sizes(Rects(6)) == [(34, 33), (245, 27), (249, 255), (255, 255)]
  {
    var r := Rects(6);
    SizesAt(r, 0);
    SizesAt(r, 1);
    SizesAt(r, 2);
    SizesAt(r, 3);
    assert r[0..] == r && r[4..] == [] && Sizes(r[4..]) == [];
  }

  /** The repack takes the first three and refuses the fourth. */
  lemma Refused()
    ensures Attempted(SMALL, Sizes(Rects(6)), SIDE, SIDE) == Attempt(false, ANEW, 255, 255)
  {
    hide Place, Skyline, Goes;
    RectSizes();
    Arrivals();
    Anew();
    PackedOne(Attempt(true, [], 0, 0), LINES);
    PackedOne(Attempt(true, ALL[..1], 34, 33), CURSORS);
    PackedOne(Attempt(true, ALL[..2], 245, 33), LEFT_ANEW);
    assert ALL[..0] == [] && ALL[..0] + [Box(LINES)] == ALL[..1] && ALL[..1] + [Box(CURSORS)] == ALL[..2]
      && ALL[..2] + [Box(LEFT_ANEW)] == ANEW;
    var s: seq<Size> := Sizes(Rects(6));
    assert s[1..][1..] == s[2..] && s[2..][1..] == s[3..] && |s[3..][1..]| == 0;
    assert PackAll(SMALL, SIDE, SIDE, Attempt(true, ANEW, 249, 255), s[3..]) == Attempt(false, ANEW, 255, 255);
    assert PackAll(SMALL, SIDE, SIDE, Attempt(true, ALL[..2], 245, 33), s[2..]) == Attempt(false, ANEW, 255, 255);
    assert PackAll(SMALL, SIDE, SIDE, Attempt(true, ALL[..1], 34, 33), s[1..]) == Attempt(false, ANEW, 255, 255);
  }

  lemma PackedOne(a: Attempt, r: Rect)
    requires Goes(a.boxes, r)
    ensures PackOne(SMALL, SIDE, SIDE, a, r.w, r.h) ==
            a.(boxes := a.boxes + [Box(r)], maxWidth := Max(a.maxWidth, r.w), maxHeight := Max(a.maxHeight, r.h))
  {
    hide Place;
  }

  /** With a texture that cannot grow, that is the end of it. */
  lemma Locks(st: Store)
    requires st.width == st.height == SIDE && st.boxes == ALL[..5] && st.places == Rects(6) && st.stale == {}
    ensures var m := Spaced(SMALL, st);
            && m.locked && m.boxes == ANEW && m.target == (SIDE, SIDE) && m.places == st.places
            && m.width == m.height == SIDE
            && m.stale == {}
  {
    hide Sizes, BoxesArea, AreaOf, Attempted, UpperPowerOfTwo, Rects;
    PrunedTwice(st);
    Areas();
    Refused();
    TriedNow(SMALL, Sizes(Rects(6)), SIDE, SIDE);
  }

  lemma FreedNothing(c: Content)
    requires c.glyphs == []
    ensures Freed(c) == c
  {
    SparedNone(c.cells, c.discards);
  }

  /** The last operation gets stuck. */
  lemma Ends(b: State)
    requires Told(b, 6)
    ensures Legal(b.content, STORY[6]) && Stuck(SMALL, b, STORY[6])
    ensures var f := Adding(SMALL, b.store, 255, 199);
            && f.spot == Some((LATEST.x, LATEST.y)) && f.store.places == Rects(6)
            && PlaceIn(SMALL, b.store, 255, 199) == None
            && f.store.width == f.store.height == SIDE
  {
    hide Goes, Place, Skyline, Spaced, Search, Rects;
    Arrivals();
    Anew();
    RectsSize();
    var asked := Asked(b.store, 255, 199);
    SearchNow(SMALL, asked, 255, 199, 3);
    Locks(asked);
    SearchNow(SMALL, Spaced(SMALL, asked), 255, 199, 2);
    assert Goes(ANEW, LATEST) ==> Place(Skyline, SIDE, SIDE, ANEW, 256, 200) == Some((LATEST.x, LATEST.y)) by {
      GoesMeans(ANEW, LATEST);
    }
  }

  lemma RectsSize()
    ensures |Rects(6)| == 4
  {
  }

  lemma GoesMeans(boxes: seq<Rect>, r: Rect)
    ensures Goes(boxes, r) <==> Place(Skyline, SIDE, SIDE, boxes, r.w + 1, r.h + 1) == Some((r.x, r.y))
  {
  }

  /** What it hands out leads to a rectangle where others are. */
  lemma HandsOut(b: State, c: State, id: int)
    requires Told(b, 6) && Legal(b.content, STORY[6]) && Did(SMALL, b, STORY[6], c, id)
    ensures id != INVALID && Entered(b.content, c.content, id) && IndexOf(id) == 4 && Leads(c.content, id)
    ensures c.store.places == Rects(6) + [Some(LATEST)]
  {
    hide Place, Skyline, Adding, Blockish, Issued, Fits, Freed, Rects;
    Ends(b);
    RectsSize();
    FreedNothing(b.content);
  }

  // --------------------------------------------------------------- the whole

  /** Everything is in place before the last operation. */
  lemma AllInPlace(st: Store)
    requires st.width == st.height == SIDE && st.places == Rects(6)
    ensures forall i :: 0 <= i < 4 ==> st.places[i].Some? && Fits(st, i, st.places[i].value)
  {
  }

  lemma SideIsPower()
    ensures UpperPowerOfTwo(SIDE) == SIDE
  {
    assert PowerOfTwo(1) && PowerOfTwo(2) && PowerOfTwo(4) && PowerOfTwo(8) && PowerOfTwo(16) && PowerOfTwo(32)
      && PowerOfTwo(64);
    assert PowerOfTwo(128) && PowerOfTwo(256) && PowerOfTwo(512);
    UpperBound(SIDE, SIDE);
  }

  /** The atlas in which the story begins. */
  ghost predicate Beginning(b: State) {
    b == State(Store(SIDE, SIDE, (SIDE, SIDE), [], [], {}, 0, 0, false), Content([], [], [], []))
  }

  lemma BeginningTold(b: State)
    requires Beginning(b)
    ensures Told(b, 0)
  {
    assert ALL[..0] == [];
  }

  /** A live id keeps leading to its rectangle while others are added. */
  lemma StillLeads(b: Content, c: Content, other: int, id: int)
    requires Entered(b, c, other) && Leads(b, id) && |b.cells| == |b.discards|
    ensures Leads(c, id)
  {
    hide Issued, IndexOf, GenerationOf;
  }

  /** What is left in the end: the six operations, and what the last one did. */
  ghost predicate Ended(trail: seq<State>, ids: seq<int>, c: State, last: int) {
    && Trail(SMALL, STORY[..6], trail, ids) && Beginning(trail[0])
    && Legal(trail[6].content, STORY[6]) && Did(SMALL, trail[6], STORY[6], c, last)
  }

  lemma EndFacts(trail: seq<State>, ids: seq<int>, c: State, last: int)
    requires Ended(trail, ids, c, last)
    ensures |trail| == 7 && |ids| == 6
    ensures Leads(c.content, ids[4]) && IndexOf(ids[4]) == 2 && Leads(c.content, ids[5]) && IndexOf(ids[5]) == 3
    ensures Leads(c.content, last) && IndexOf(last) == 4
    ensures c.store.places == Rects(6) + [Some(LATEST)]
    ensures |trail[6].store.places| == 4
            && forall i :: 0 <= i < 4 ==>
                trail[6].store.places[i].Some? && Fits(trail[6].store, i, trail[6].store.places[i].value)
  {
    hide Moves, Did, Entered, Legal, Fits, Leads, Shapely, Rects;
    BeginningTold(trail[0]);
    StoryTold(6, trail, ids, 4);
    StoryTold(6, trail, ids, 5);
    StoryTold(6, trail, ids, 6);
    assert STORY[..6][4] == STORY[4] && STORY[..6][5] == STORY[5];
    MoveTold(trail[4], 4, trail[5], ids[4]);
    MoveTold(trail[5], 5, trail[6], ids[5]);
    HandsOut(trail[6], c, last);
    ShapelySizes(trail[5]);
    ShapelySizes(trail[6]);
    StillLeads(trail[5].content, trail[6].content, ids[5], ids[4]);
    StillLeads(trail[6].content, c.content, last, ids[4]);
    StillLeads(trail[6].content, c.content, last, ids[5]);
    RectsSize();
    AllInPlace(trail[6].store);
  }

  lemma ShapelySizes(b: State)
    requires Shapely(b)
    ensures |b.content.cells| == |b.content.discards|
  {
  }

  /** Six operations go well, and everything is in place. The seventh gets the atlas stuck, and hands
      out an id for a rectangle that lies over two others, to which the ids of the fifth and of the
      sixth operation still lead. */
  method GetsStuck() returns (a: Atlas, ghost trail: seq<State>, ghost ids: seq<int>, ghost last: int)
    ensures a.setup == SMALL && a.texData.Shape() && a.Usable() && a.lock && a.texData.wantDestroyNextFrame
    ensures Ended(trail, ids, StateOf(a), last)
    ensures |trail[6].store.places| == 4
            && forall i :: 0 <= i < 4 ==>
                trail[6].store.places[i].Some? && Fits(trail[6].store, i, trail[6].store.places[i].value)
    ensures a.table.Resolves(ids[4]) && a.RectOf(ids[4]) == LEFT && a.table.Resolves(ids[5])
      && a.RectOf(ids[5]) == RIGHT
    ensures a.table.Resolves(last) && a.RectOf(last) == LATEST && !Disjoint(LATEST, LEFT) && !Disjoint(LATEST, RIGHT)
  {
    hide Atlas.Valid, Atlas.Core, Atlas.Packable, Atlas.Held, Atlas.Cells, Trail, Told, Legal, Stuck, Did;
    hide UpperPowerOfTwo, Fits, Shapely;
    SideIsPower();
    a := new Atlas(SMALL);
    a.UsableWhenValid();
    a.BaseTargets();
    var n;
    ghost var b := StateOf(a);
    n, trail, ids, last := AtlasRuns.Run(a, STORY);
    BeginningTold(b);
    a.BaseTargets();
    RanUpTo6(n, trail, ids);
    Outcome(a, trail, ids, last);
  }

  lemma Outcome(a: Atlas, trail: seq<State>, ids: seq<int>, last: int)
    requires a.Core() && Ended(trail, ids, StateOf(a), last)
    ensures |trail| == 7 && |ids| == 6 && |trail[6].store.places| == 4
            && forall i :: 0 <= i < 4 ==>
                trail[6].store.places[i].Some? && Fits(trail[6].store, i, trail[6].store.places[i].value)
    ensures a.table.Resolves(ids[4]) && a.RectOf(ids[4]) == LEFT && a.table.Resolves(ids[5])
      && a.RectOf(ids[5]) == RIGHT
    ensures a.table.Resolves(last) && a.RectOf(last) == LATEST
  {
    hide Atlas.Core, Atlas.Held, Atlas.Stored, Trail, Legal, Did, Leads, Fits, Beginning, PlaceOf, IndexOf;
    hide RectTable.Resolves;
    a.BaseTargets();
    EndFacts(trail, ids, StateOf(a), last);
    Resolved(a, ids[4]);
    Resolved(a, ids[5]);
    Resolved(a, last);
  }

  /** The run cannot end earlier, nor later. */
  lemma RanUpTo6(n: nat, trail: seq<State>, ids: seq<int>)
    requires n <= 7 && Trail(SMALL, STORY[..n], trail, ids) && Told(trail[0], 0)
    requires n < 7 ==> Legal(trail[n].content, STORY[n]) && Stuck(SMALL, trail[n], STORY[n])
    ensures n == 6
  {
    hide Legal, Stuck, Did, Told, Shapely;
    StoryTold(n, trail, ids, if n < 6 then n else 6);
    if n < 6 {
      Goes6(trail[n], n);
    } else if n == 7 {
      assert Moves(SMALL, trail[6], STORY[..n][6], trail[7], ids[6]);
      Ends(trail[6]);
    }
  }

  lemma Resolved(a: Atlas, id: int)
    requires a.Core() && Leads(a.Held(), id)
    ensures a.table.Resolves(id) && IndexOf(id) < |a.Stored().places|
      && a.Stored().places[IndexOf(id)] == Some(a.RectOf(id))
  {
    hide GlyphsOk, DistinctGlyphs, UsedCount, FreeList, Generations;
    LeadsSame(a, id);
  }
}
