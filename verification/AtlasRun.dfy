/** Whole runs of the font atlas. */
module AtlasRuns {
  import opened Options
  import opened Textures
  import opened AtlasRects
  import opened AtlasPacking
  import opened AtlasContents
  import opened Atlases

  datatype AtlasOp =
    | AddCustomRect(w: nat, h: nat)
    | RemoveCustomRect(id: int)
    | LoadGlyph(w: nat, h: nat)
    | GoStale(k: nat)                 // a glyph has not been used lately
    | Paint(id: int, colour: nat)
    | MakeRoom
    | RepackTo(w: nat, h: nat)

  datatype State = State(store: Store, content: Content)

  ghost function StateOf(a: Atlas): State
    requires a.texData.Shape()
    reads a, a.table, a.packer, a.texData.pixels
  {
    State(a.Stored(), a.Held())
  }

  /** The texture has pixels, every entry a rectangle if it is in use, and a count of its discards;
      and the slots of stale glyphs are known. */
  ghost predicate Shapely(b: State) {
    && b.store.width > 0 && b.store.height > 0
    && |b.content.cells| == |b.content.discards| == |b.store.places|
    && (forall i :: 0 <= i < |b.store.places| ==> b.store.places[i].Some? == b.content.cells[i].Some?)
    && b.store.stale == StaleSlots(b.content.glyphs)
  }

  // ---------------------------------------------------------- what is allowed

  /** An id leads to an entry in use. */
  ghost predicate Leads(c: Content, id: int) {
    && id != INVALID && IndexOf(id) < |c.cells|
    && c.cells[IndexOf(id)].Some? && c.cells[IndexOf(id)].value.0 == GenerationOf(id)
  }

  ghost predicate HasSlot(c: Content) { c.free == [] ==> |c.cells| < INDEX_RANGE }

  /** What the operations ask of their callers: sizes that fit 16 bits, ids that are not a
      glyph's, and a free index entry. */
  ghost predicate Legal(c: Content, op: AtlasOp) {
    match op
    case AddCustomRect(w, h) => 0 < w <= 0xFFFF && 0 < h <= 0xFFFF && HasSlot(c)
    case LoadGlyph(w, h) => 0 < w <= 0xFFFF && 0 < h <= 0xFFFF && HasSlot(c)
    case RemoveCustomRect(id) => Leads(c, id) ==> Unclaimed(c.glyphs, IndexOf(id))
    case GoStale(k) => k < |c.glyphs|
    case Paint(id, _) => Leads(c, id)
    case MakeRoom => true
    case RepackTo(w, h) => 0 < w <= 0x1_0000 && 0 < h <= 0x1_0000
  }

  /** The same, asked of the atlas itself. */
  predicate LegalNow(a: Atlas, op: AtlasOp)
    reads a, a.table
  {
    match op
    case AddCustomRect(w, h) => 0 < w <= 0xFFFF && 0 < h <= 0xFFFF
        && (a.table.freeStart < 0 ==> |a.table.index| < INDEX_RANGE)
    case LoadGlyph(w, h) => 0 < w <= 0xFFFF && 0 < h <= 0xFFFF
        && (a.table.freeStart < 0 ==> |a.table.index| < INDEX_RANGE)
    case RemoveCustomRect(id) => a.table.Resolves(id) ==> Unclaimed(a.glyphs, IndexOf(id))
    case GoStale(k) => k < |a.glyphs|
    case Paint(id, _) => a.table.Resolves(id)
    case MakeRoom => true
    case RepackTo(w, h) => 0 < w <= 0x1_0000 && 0 < h <= 0x1_0000
  }

  lemma LegalSame(a: Atlas, op: AtlasOp)
    requires a.Valid()
    ensures a.texData.Shape() && (LegalNow(a, op) <==> Legal(a.Held(), op))
  {
    hide Unclaimed, InTexture, GlyphsOk, DistinctGlyphs, LockStep, Packing, Generations, Targets, UsedCount, LiveArea;
    hide FreeList, Bares;
    FreeStart(a.table.index, a.table.freeStart, a.table.free);
    match op
    case RemoveCustomRect(id) =>
      BareUnclaimed(a.glyphs, IndexOf(id));
      LeadsSame(a, id);
    case Paint(id, _) => LeadsSame(a, id);
    case _ =>
  }

  // ------------------------------------------------------- what an operation does

  /** Repacking finds no size that takes everything. */
  ghost predicate Stuck(s: Setup, b: State, op: AtlasOp)
    requires Limits(s) && Shapely(b)
  {
    match op
    case AddCustomRect(w, h) => Adding(s, b.store, w, h).store.locked
    case LoadGlyph(w, h) => Adding(s, b.store, w, h).store.locked
    case MakeRoom => Spaced(s, b.store).locked
    case RepackTo(w, h) => w > 0 && h > 0 && Repacked(s, b.store, w, h).locked
    case _ => false
  }

  /** `c` after entry `i` was given up. */
  function Dropped(c: Content, i: nat): Content
    requires i < |c.cells| && i < |c.discards|
  {
    c.(cells := c.cells[i := None], discards := c.discards[i := c.discards[i] + 1], free := [i] + c.free)
  }

  /** A rectangle was added, or no room was found for it. As long as the atlas is not locked, it fits;
      its pixels are there if it lies within the texture. */
  ghost predicate Added(s: Setup, b: State, c: State, id: int, w: nat, h: nat)
    requires Limits(s) && Shapely(b)
  {
    var f := Adding(s, b.store, w, h);
    && Entered(KeptFor(s, b.store, b.content, w, h), c.content, id) && (id != INVALID <==> f.spot.Some?)
    && if id == INVALID then c.store == f.store
       else
         var i, r := IndexOf(id), Rect(f.spot.value.0, f.spot.value.1, w, h);
         && i <= |f.store.places| && c.store == Packed(f, i, w, h, s.padding)
         && (!c.store.locked ==> Fits(c.store, i, r))
         && (Inside(r, c.store.width, c.store.height) ==> Blockish(c.content.cells[i].value.1, w, h))
  }

  /** What an operation makes of a state, stuck or not, and the id it hands out. */
  ghost predicate Did(s: Setup, b: State, op: AtlasOp, c: State, id: int)
    requires Limits(s) && Shapely(b) && Legal(b.content, op)
  {
    match op
    case AddCustomRect(w, h) => Added(s, b, c, id, w, h)
    case LoadGlyph(w, h) =>
      var gs := KeptFor(s, b.store, b.content, w, h).glyphs;
      && Added(s, b, c.(content := c.content.(glyphs := gs)), id, w, h)
      && c.content.glyphs == gs + (if id != INVALID then [Glyph(id, 0.0, 0.0, 0.0, 0.0, false)] else [])
    case RemoveCustomRect(given) =>
      && id == INVALID
      && if Leads(b.content, given) then
           c == State(b.store.(places := b.store.places[IndexOf(given) := None]), Dropped(b.content, IndexOf(given)))
         else c == b
    case GoStale(k) =>
      var gs := b.content.glyphs[k := b.content.glyphs[k].(stale := true)];
      id == INVALID && c == State(b.store.(stale := StaleSlots(gs)), b.content.(glyphs := gs))
    case Paint(given, colour) =>
      var i, (w, h) := IndexOf(given), CellSize(b.content.cells[IndexOf(given)].value.1);
      id == INVALID
          && c == b.(content := b.content.(cells := b.content.cells[i := Some((GenerationOf(given),
          Solid(w, h, colour)))]))
    case MakeRoom => id == INVALID && c == State(Spaced(s, b.store), Freed(b.content))
    case RepackTo(w, h) => id == INVALID && c == State(Repacked(s, b.store, w, h), b.content)
  }

  // -------------------------------------------------------------- operations

  lemma Basics(a: Atlas)
    requires a.Core()
    ensures a.texData.Shape() && Limits(a.setup) && Shapely(StateOf(a))
  {
    hide GlyphsOk, DistinctGlyphs, FreeList, Generations, UsedCount, StaleSlots, Bares, Shown;
    a.BaseTargets();
    BareStale(a.glyphs);
  }

  method AddStep(a: Atlas, w: nat, h: nat) returns (id: int)
    requires a.Valid() && !a.lock && Limits(a.setup) && Shapely(StateOf(a)) && Legal(a.Held(), AddCustomRect(w, h))
    requires a.table.freeStart < 0 ==> |a.table.index| < INDEX_RANGE
    modifies a, a.packer, a.table, a.texData`wantDestroyNextFrame
    ensures a.Usable() && a.texData.Shape() && Did(a.setup, old(StateOf(a)), AddCustomRect(w, h), StateOf(a), id)
    ensures a.texData == old(a.texData) || (fresh(a.texData) && fresh(a.texData.pixels))
  {
    hide Atlas.Valid, Atlas.Core, Atlas.Packable, Atlas.Cells, Atlas.Stored, Entered, Fits, RoomFor, Packed, KeptFor;
    hide Adding, TooLarge, Shapely, Blockish;
    a.UsableWhenValid();
    id := a.AddRect(w, h);
    a.BaseTargets();
    StoredSize(a);
  }

  lemma StoredSize(a: Atlas)
    ensures a.Stored().width == a.texData.width && a.Stored().height == a.texData.height && a.Stored().locked == a.lock
    ensures a.texData.Shape() ==> a.Held().cells == a.Cells()
  {
  }

  method GlyphStep(a: Atlas, w: nat, h: nat) returns (id: int)
    requires a.Valid() && !a.lock && Limits(a.setup) && Shapely(StateOf(a)) && Legal(a.Held(), LoadGlyph(w, h))
    requires a.table.freeStart < 0 ==> |a.table.index| < INDEX_RANGE
    modifies a, a.packer, a.table, a.texData`wantDestroyNextFrame
    ensures a.Usable() && a.texData.Shape() && Did(a.setup, old(StateOf(a)), LoadGlyph(w, h), StateOf(a), id)
    ensures a.texData == old(a.texData) || (fresh(a.texData) && fresh(a.texData.pixels))
  {
    hide Atlas.Valid, Atlas.Core, Atlas.Packable, Atlas.Cells, Atlas.Stored, Fits, RoomFor, Packed, Adding, TooLarge;
    hide Shapely, Blockish;
    hide Bares, Issued, NextSlot, Freed;
    a.UsableWhenValid();
    ghost var kept := KeptFor(a.setup, a.Stored(), a.Held(), w, h);
    hide KeptFor;
    var ok := a.AddGlyph(w, h);
    a.BaseTargets();
    StoredSize(a);
    id := INVALID;
    if ok {
      id := a.glyphs[|a.glyphs| - 1].packId;
      LastBare(a.glyphs);
    } else {
      EnteredNothing(kept, kept);
      assert a.Held().(glyphs := kept.glyphs) == kept;
    }
  }

  lemma LastBare(gs: seq<Glyph>)
    requires gs != []
    ensures Bares(gs) == Bares(gs[..|gs| - 1]) + [Bare(gs[|gs| - 1])]
  {
  }

  method RemoveStep(a: Atlas, id: int)
    requires a.Valid() && !a.lock && Limits(a.setup) && Shapely(StateOf(a)) && Legal(a.Held(), RemoveCustomRect(id))
    modifies a.table
    ensures a.Usable() && a.texData.Shape() && Did(a.setup, old(StateOf(a)), RemoveCustomRect(id), StateOf(a), INVALID)
  {
    hide RectTable.Valid, RectTable.Linked, InTexture, GlyphsOk, DistinctGlyphs, LockStep, Packing, UsedCount;
    hide PictureOf, Bares;
    hide PlacesOf, Unclaimed, StaleSlots, BoxesArea, Atlas.Stored, Atlas.Cells;
    LeadsSame(a, id);
    StoredSize(a);
    GlyphsSame(a);
    a.RemoveRect(id);
    a.UsableWhenValid();
  }

  lemma LeadsSame(a: Atlas, id: int)
    requires a.Core()
    ensures Leads(a.Held(), id) <==> a.table.Resolves(id)
  {
    hide GlyphsOk, DistinctGlyphs, UsedCount, Bares, FreeList, Generations, Shown;
  }

  lemma GlyphsSame(a: Atlas)
    requires a.texData.Shape()
    ensures forall i: nat :: Unclaimed(a.Held().glyphs, i) <==> Unclaimed(a.glyphs, i)
  {
    hide Unclaimed;
    forall i: nat ensures Unclaimed(a.Held().glyphs, i) <==> Unclaimed(a.glyphs, i) {
      BareUnclaimed(a.glyphs, i);
    }
  }

  /** The glyph's size was not used for some time. */
  method MarkStale(a: Atlas, k: nat)
    requires a.Valid() && !a.lock && Limits(a.setup) && Shapely(StateOf(a)) && Legal(a.Held(), GoStale(k))
    requires k < |a.glyphs|
    modifies a`glyphs
    ensures a.Usable() && a.texData.Shape() && Did(a.setup, old(StateOf(a)), GoStale(k), StateOf(a), INVALID)
  {
    hide RectTable.Valid, RectTable.Linked, InTexture, GlyphsOk, DistinctGlyphs, LockStep, Packing, UsedCount;
    hide PictureOf, PlacesOf;
    hide StaleSlots, BoxesArea;
    ghost var gs := a.glyphs[k := a.glyphs[k].(stale := true)];
    StaleGlyph(a.glyphs, a.table.index, a.table.rects, a.uvScale, k);
    BareStale(gs);
    assert Bares(gs) == Bares(a.glyphs)[k := Bares(a.glyphs)[k].(stale := true)];
    a.glyphs := a.glyphs[k := a.glyphs[k].(stale := true)];
    a.UsableWhenValid();
  }

  lemma StaleGlyph(gs: seq<Glyph>, index: seq<Entry>, rects: seq<Rect>, s: Scale, k: nat)
    requires k < |gs| && GlyphsOk(gs, index, rects, s) && DistinctGlyphs(gs)
    ensures GlyphsOk(gs[k := gs[k].(stale := true)], index, rects, s) && DistinctGlyphs(gs[k := gs[k].(stale := true)])
  {
  }

  method PaintStep(a: Atlas, id: int, colour: nat)
    requires a.Valid() && !a.lock && Limits(a.setup) && Shapely(StateOf(a)) && Legal(a.Held(), Paint(id, colour))
    requires a.table.Resolves(id)
    modifies a.texData.pixels
    ensures a.Usable() && a.texData.Shape() && Did(a.setup, old(StateOf(a)), Paint(id, colour), StateOf(a), INVALID)
  {
    hide RectTable.Valid, GlyphsOk, DistinctGlyphs, LockStep, Packing, UsedCount, Bares, PlacesOf, FreeList;
    hide Generations, StaleSlots, BoxesArea;
    TargetAt(a.table.index, a.table.rects, IndexOf(id));
    var r := a.table.rects[a.table.index[IndexOf(id)].target];
    assert r.w > 0 && r.h > 0;
    assert CellSize(a.Held().cells[IndexOf(id)].value.1) == (r.w, r.h);
    a.Paint(id, colour);
    a.UsableWhenValid();
  }

  method RoomStep(a: Atlas)
    requires a.Valid() && !a.lock && Limits(a.setup) && Shapely(StateOf(a)) && Legal(a.Held(), MakeRoom)
    modifies a, a.packer, a.table, a.texData`wantDestroyNextFrame
    ensures a.Usable() && a.texData.Shape() && Did(a.setup, old(StateOf(a)), MakeRoom, StateOf(a), INVALID)
    ensures a.texData == old(a.texData) || (fresh(a.texData) && fresh(a.texData.pixels))
  {
    hide Atlas.Valid, Atlas.Core, Atlas.Held, Atlas.Stored, Spaced, Freed, Atlas.Packable;
    hide Pruned, Sizes, AreaOf, Repacked, GrownFrom;
    a.UsableWhenValid();
    a.MakeSpace();
    a.BaseTargets();
  }

  method RepackStep(a: Atlas, w: nat, h: nat)
    requires a.Valid() && !a.lock && Limits(a.setup) && Shapely(StateOf(a)) && Legal(a.Held(), RepackTo(w, h))
    modifies a, a.packer, a.table, a.texData`wantDestroyNextFrame
    ensures a.Usable() && a.texData.Shape() && Did(a.setup, old(StateOf(a)), RepackTo(w, h), StateOf(a), INVALID)
    ensures a.texData == old(a.texData) || (fresh(a.texData) && fresh(a.texData.pixels))
  {
    hide Atlas.Valid, Atlas.Core, Atlas.Held, Atlas.Stored, Repacked, Atlas.Packable, AllRefuse, Growth;
    a.UsableWhenValid();
    a.Repack(w, h);
    a.BaseTargets();
  }

  /** One operation. Whatever comes of it is accounted for, and the atlas is locked exactly if it got
      stuck. */
  method Step(a: Atlas, op: AtlasOp) returns (id: int)
    requires a.Valid() && !a.lock && Limits(a.setup) && Shapely(StateOf(a)) && Legal(a.Held(), op) && LegalNow(a, op)
    modifies a, a.packer, a.table, a.texData`wantDestroyNextFrame, a.texData.pixels
    ensures a.Usable() && a.texData.Shape() && Did(a.setup, old(StateOf(a)), op, StateOf(a), id)
    ensures a.lock <==> Stuck(a.setup, old(StateOf(a)), op)
    ensures a.texData == old(a.texData) || (fresh(a.texData) && fresh(a.texData.pixels))
  {
    hide Atlas.Valid, Atlas.Core, Atlas.Packable, Atlas.Held, Atlas.Stored, Atlas.Cells, Legal, Did, Shapely, Stuck;
    id := INVALID;
    a.UsableWhenValid();
    a.BaseTargets();
    ghost var b := StateOf(a);
    StoredSize(a);
    match op {
      case AddCustomRect(w, h) => id := AddStep(a, w, h);
      case RemoveCustomRect(given) => RemoveStep(a, given);
      case LoadGlyph(w, h) => id := GlyphStep(a, w, h);
      case GoStale(k) => MarkStale(a, k);
      case Paint(given, colour) => PaintStep(a, given, colour);
      case MakeRoom => RoomStep(a);
      case RepackTo(w, h) => RepackStep(a, w, h);
    }
    StoredSize(a);
    StuckExactly(a.setup, b, op, StateOf(a), id);
  }

  /** What an operation makes of a state is locked exactly if it gets stuck. */
  lemma StuckExactly(s: Setup, b: State, op: AtlasOp, c: State, id: int)
    requires Limits(s) && Shapely(b) && !b.store.locked && Legal(b.content, op) && Did(s, b, op, c, id)
    ensures c.store.locked <==> Stuck(s, b, op)
  {
    hide Adding, KeptFor, Entered, Packed, Fits, Blockish, Spaced, Repacked, Freed, Solid, StaleSlots, Dropped;
    hide Unclaimed;
  }

  // ----------------------------------------------------------------------- runs

  /** One move of a run: a legal operation that does not get stuck, or nothing when it is not legal. */
  ghost predicate Moves(s: Setup, b: State, op: AtlasOp, c: State, id: int)
    requires Limits(s) && Shapely(b)
  {
    if Legal(b.content, op) then !Stuck(s, b, op) && Did(s, b, op, c, id) else c == b && id == INVALID
  }

  /** The states a run goes through, and the ids that its operations hand out. */
  ghost predicate Trail(s: Setup, ops: seq<AtlasOp>, trail: seq<State>, ids: seq<int>) {
    && Limits(s) && |trail| == |ops| + 1 && |ids| == |ops|
    && (forall k :: 0 <= k < |trail| ==> Shapely(trail[k]))
    && forall k :: 0 <= k < |ops| ==> Moves(s, trail[k], ops[k], trail[k + 1], ids[k])
  }

  lemma TrailStart(s: Setup, b: State)
    requires Limits(s) && Shapely(b)
    ensures Trail(s, [], [b], [])
  {
  }

  lemma TrailMore(s: Setup, ops: seq<AtlasOp>, trail: seq<State>, ids: seq<int>, op: AtlasOp, c: State, id: int)
    requires Trail(s, ops, trail, ids) && Shapely(c) && Moves(s, trail[|ops|], op, c, id)
    ensures Trail(s, ops + [op], trail + [c], ids + [id])
  {
    hide Moves, Shapely;
  }

  /** Any run of operations, in which illegal ones are left out: the atlas makes exactly these moves,
      up to the first operation that gets stuck, if there is one. What that one did is accounted for
      as well; it locks the atlas and flags its texture. */
  method Run(a: Atlas, ops: seq<AtlasOp>)
    returns (n: nat, ghost trail: seq<State>, ghost ids: seq<int>, ghost last: int)
    requires a.Valid() && !a.lock
    modifies a, a.packer, a.table, a.texData`wantDestroyNextFrame, a.texData.pixels
    ensures n <= |ops| && Trail(a.setup, ops[..n], trail, ids) && trail[0] == old(StateOf(a)) && a.Usable()
      && a.texData.Shape()
    ensures if n == |ops| then !a.lock && trail[n] == StateOf(a)
            else a.lock && Legal(trail[n].content, ops[n]) && Stuck(a.setup, trail[n], ops[n])
                 && Did(a.setup, trail[n], ops[n], StateOf(a), last)
  {
    hide Atlas.Valid, Atlas.Core, Atlas.Packable, Atlas.Held, Atlas.Stored, Legal, LegalNow, Did, Stuck, Trail, Shapely;
    a.UsableWhenValid();
    Basics(a);
    trail, ids, n, last := [StateOf(a)], [], 0, INVALID;
    TrailStart(a.setup, StateOf(a));
    assert ops[..0] == [];
    while n < |ops|
      invariant n <= |ops| && !a.lock && a.Valid() && a.Usable() && a.texData.Shape() && |trail| == n + 1 && |ids| == n
      invariant trail[n] == StateOf(a) && Trail(a.setup, ops[..n], trail, ids) && trail[0] == old(StateOf(a))
      invariant a.texData == old(a.texData) || (fresh(a.texData) && fresh(a.texData.pixels))
    {
      Basics(a);
      LegalSame(a, ops[n]);
      ghost var id := INVALID;
      if LegalNow(a, ops[n]) {
        id := Step(a, ops[n]);
        if a.lock {
          last := id;
          return;
        }
        Basics(a);
      }
      TrailMore(a.setup, ops[..n], trail, ids, ops[n], StateOf(a), id);
      assert ops[..n + 1] == ops[..n] + [ops[n]];
      trail, ids, n := trail + [StateOf(a)], ids + [id], n + 1;
    }
    assert ops[..n] == ops;
  }
}
