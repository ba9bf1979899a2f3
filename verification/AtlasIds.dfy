/** What the atlas's ids stand for over whole runs. */
module AtlasIds {
  import opened Options
  import opened Textures
  import opened AtlasRects
  import opened AtlasPacking
  import opened AtlasContents
  import opened Atlases
  import opened AtlasRuns

  /** Every entry in use carries the generation its number of discards calls for. */
  ghost predicate Numbered(c: Content) {
    && |c.cells| == |c.discards| <= INDEX_RANGE
    && forall i :: 0 <= i < |c.cells| && c.cells[i].Some? ==> c.cells[i].value.0 == Generation(c.discards[i])
  }

  /** Nothing is discarded less often than before, and an entry that was in use and was not
      discarded since still is, with its generation and its size. */
  ghost predicate Lasts(b: Content, c: Content) {
    && Older(b.discards, c.discards) && |b.cells| == |b.discards| && |c.cells| == |c.discards|
    && forall i :: 0 <= i < |b.cells| && b.cells[i].Some? && c.discards[i] == b.discards[i] ==>
         c.cells[i].Some? && c.cells[i].value.0 == b.cells[i].value.0
             && CellSize(c.cells[i].value.1) == CellSize(b.cells[i].value.1)
  }

  lemma LastsStill(b: Content, c: Content, d: Content)
    requires Lasts(b, c) && Lasts(c, d)
    ensures Lasts(b, d)
  {
    hide CellSize;
  }

  lemma FreedLasts(c: Content)
    requires |c.cells| == |c.discards|
    ensures Lasts(c, Freed(c)) && (Numbered(c) ==> Numbered(Freed(c)))
    ensures forall i :: 0 <= i < |c.cells| && Freed(c).discards[i] == c.discards[i] ==> Freed(c).cells[i] == c.cells[i]
    ensures forall i :: 0 <= i < |c.cells| ==> Freed(c).discards[i] == c.discards[i] + if i in StaleSlots(c.glyphs)
        then 1 else 0
  {
    hide StaleSlots, CellSize, Generation;
  }

  lemma EnteredLasts(base: Content, c: Content, id: int)
    requires Entered(base, c, id) && |base.cells| == |base.discards|
    ensures Lasts(base, c) && (Numbered(base) ==> Numbered(c))
    ensures forall i :: 0 <= i < |base.cells| && base.cells[i].Some? ==> c.cells[i] == base.cells[i]
    ensures forall i :: 0 <= i < |base.cells| ==> c.discards[i] == base.discards[i]
  {
    hide CellSize, Generation;
    if id != INVALID {
      IssuedGeneration(c.discards, id);
    }
  }

  lemma IssuedGeneration(discards: seq<nat>, id: int)
    requires Issued(discards, id)
    ensures GenerationOf(id) == Generation(discards[IndexOf(id)]) && id == MakeId(IndexOf(id), GenerationOf(id))
  {
    GenerationRange(discards[IndexOf(id)]);
    IdRoundTrip(IndexOf(id), Generation(discards[IndexOf(id)]));
  }

  /** There is room for a rectangle at once, or no space can be made. */
  ghost predicate HasRoom(s: Setup, b: State, w: nat, h: nat) { b.store.locked || PlaceIn(s, b.store, w, h).Some? }

  lemma KeptLasts(s: Setup, b: State, w: nat, h: nat)
    requires |b.content.cells| == |b.content.discards|
    ensures var kept := KeptFor(s, b.store, b.content, w, h);
            && |kept.cells| == |kept.discards| && Lasts(b.content, kept) && (Numbered(b.content) ==> Numbered(kept))
            && (forall i :: 0 <= i < |b.content.cells| && kept.discards[i] == b.content.discards[i] ==>
                kept.cells[i] == b.content.cells[i])
            && forall i :: 0 <= i < |b.content.cells| ==>
                 kept.discards[i] == b.content.discards[i] + if i in StaleSlots(b.content.glyphs)
                     && !HasRoom(s, b, w, h) then 1 else 0
  {
    hide Freed, Numbered, PlaceIn, StaleSlots;
    FreedLasts(b.content);
    if HasRoom(s, b, w, h) {
      LastsItself(b.content);
    }
  }

  lemma LastsItself(c: Content)
    requires |c.cells| == |c.discards|
    ensures Lasts(c, c)
  {
  }

  lemma SolidSize(rows: Image, colour: nat)
    ensures var (w, h) := CellSize(rows); CellSize(Solid(w, h, colour)) == CellSize(rows)
  {
  }

  /** An operation that writes the pixels of entry `i`. */
  predicate Paints(op: AtlasOp, i: nat) { op.Paint? && IndexOf(op.id) == i }

  /** An operation that discards entry `i`: it removes it, or it has to make space while the entry is
      a stale glyph's. */
  ghost predicate Discards(s: Setup, b: State, op: AtlasOp, i: nat) {
    match op
    case RemoveCustomRect(id) => Leads(b.content, id) && IndexOf(id) == i
    case MakeRoom => i in b.store.stale
    case AddCustomRect(w, h) => i in b.store.stale && !HasRoom(s, b, w, h)
    case LoadGlyph(w, h) => i in b.store.stale && !HasRoom(s, b, w, h)
    case _ => false
  }

  /** One move keeps the numbering, discards just the entries it is meant to, lets everything else
      last, and changes no pixels but those it paints. */
  lemma MoveLasts(s: Setup, b: State, op: AtlasOp, c: State, id: int)
    requires Limits(s) && Shapely(b) && Moves(s, b, op, c, id) && Numbered(b.content)
    ensures Lasts(b.content, c.content) && Numbered(c.content)
    ensures forall i :: 0 <= i < |b.content.cells| ==>
              c.content.discards[i] == b.content.discards[i] + if Legal(b.content, op) && Discards(s, b, op, i) then 1
                  else 0
    ensures forall i :: 0 <= i < |b.content.cells| && b.content.cells[i].Some? && !Paints(op, i) ==>
              c.content.discards[i] == b.content.discards[i] ==> c.content.cells[i] == b.content.cells[i]
  {
    hide Freed, KeptFor, Entered, Adding, Spaced, Repacked, Packed, Generation, Solid, StaleSlots, Unclaimed, HasRoom;
    hide Fits, Blockish;
    if Legal(b.content, op) {
      match op
      case AddCustomRect(w, h) =>
        KeptLasts(s, b, w, h);
        EnteredLasts(KeptFor(s, b.store, b.content, w, h), c.content, id);
        LastsStill(b.content, KeptFor(s, b.store, b.content, w, h), c.content);
      case LoadGlyph(w, h) =>
        var kept := KeptFor(s, b.store, b.content, w, h);
        KeptLasts(s, b, w, h);
        EnteredLasts(kept, c.content.(glyphs := kept.glyphs), id);
        LastsStill(b.content, kept, c.content);
      case Paint(given, colour) => SolidSize(b.content.cells[IndexOf(given)].value.1, colour);
      case MakeRoom => FreedLasts(b.content);
      case _ =>
    }
  }

  /** The same from any state of a run to any later one. */
  lemma {:induction false} TrailLasts(s: Setup, ops: seq<AtlasOp>, trail: seq<State>, ids: seq<int>, k: nat, m: nat)
    requires Trail(s, ops, trail, ids) && k <= m <= |ops| && Numbered(trail[k].content)
    ensures Lasts(trail[k].content, trail[m].content) && Numbered(trail[m].content)
    decreases m - k
  {
    hide Numbered, Lasts, Moves;
    if k < m {
      TrailLasts(s, ops, trail, ids, k, m - 1);
      MoveLasts(s, trail[m - 1], ops[m - 1], trail[m], ids[m - 1]);
      LastsStill(trail[k].content, trail[m - 1].content, trail[m].content);
    } else {
      assert |trail[k].content.cells| == |trail[k].content.discards| by { assert Shapely(trail[k]); }
      LastsItself(trail[k].content);
    }
  }

  /** Pixels stay what they are from one state of a run to any later one, as long as their entry is
      neither discarded nor painted. */
  lemma {:induction false} PixelsStay(s: Setup, ops: seq<AtlasOp>, trail: seq<State>, ids: seq<int>, k: nat, m: nat,
      i: nat)
    requires Trail(s, ops, trail, ids) && k <= m <= |ops| && Numbered(trail[k].content)
    requires i < |trail[k].content.cells| && trail[k].content.cells[i].Some?
    requires i < |trail[m].content.discards| && trail[m].content.discards[i] == trail[k].content.discards[i]
    requires forall j :: k <= j < m ==> !Paints(ops[j], i)
    ensures i < |trail[m].content.cells| && trail[m].content.cells[i] == trail[k].content.cells[i]
    decreases m - k
  {
    hide Numbered, Moves;
    if k < m {
      TrailLasts(s, ops, trail, ids, k, m - 1);
      TrailLasts(s, ops, trail, ids, m - 1, m);
      PixelsStay(s, ops, trail, ids, k, m - 1, i);
      MoveLasts(s, trail[m - 1], ops[m - 1], trail[m], ids[m - 1]);
    }
  }

  /** An id that a move hands out leads to an entry, in the form that its number of discards gives. */
  lemma HandedOut(s: Setup, b: State, op: AtlasOp, c: State, id: int)
    requires Limits(s) && Shapely(b) && Moves(s, b, op, c, id) && id != INVALID
    ensures Issued(c.content.discards, id) && Leads(c.content, id) && |c.content.cells| == |c.content.discards|
    ensures (exists w, h :: op == AddCustomRect(w, h) && Blockish(c.content.cells[IndexOf(id)].value.1, w, h))
            || (exists w, h :: op == LoadGlyph(w, h) && Blockish(c.content.cells[IndexOf(id)].value.1, w, h))
  {
    hide Freed, KeptFor, Adding, Spaced, Repacked, Packed, Generation, Solid, StaleSlots, Unclaimed;
    match op
    case AddCustomRect(w, h) => assert Blockish(c.content.cells[IndexOf(id)].value.1, w, h);
    case LoadGlyph(w, h) => assert Blockish(c.content.cells[IndexOf(id)].value.1, w, h);
    case _ =>
  }

  /** Whatever happens after an id was handed out: it leads to an entry, of the same size, for as long
      as that was not discarded, and afterwards only when the slot is in use again and its generations
      have come round in full. */
  lemma IdMeaning(s: Setup, ops: seq<AtlasOp>, trail: seq<State>, ids: seq<int>, k: nat, m: nat)
    requires Trail(s, ops, trail, ids) && Numbered(trail[0].content) && k < m <= |ops| && ids[k] != INVALID
    ensures var i, b, c := IndexOf(ids[k]), trail[k + 1].content, trail[m].content;
            && i < |b.discards| <= |c.discards| && i < |b.cells| <= |c.cells| && b.cells[i].Some?
            && b.discards[i] <= c.discards[i]
            && (Leads(c, ids[k]) <==>
                  c.discards[i] == b.discards[i] ||
                  (c.cells[i].Some? && b.discards[i] > 0 && (c.discards[i] - b.discards[i]) % 1023 == 0))
            && (c.discards[i] == b.discards[i] ==>
                c.cells[i].Some? && CellSize(c.cells[i].value.1) == CellSize(b.cells[i].value.1))
  {
    hide Moves, CellSize, Generation, Numbered;
    var i, b, c := IndexOf(ids[k]), trail[k + 1].content, trail[m].content;
    TrailLasts(s, ops, trail, ids, 0, k + 1);
    TrailLasts(s, ops, trail, ids, k + 1, m);
    HandedOut(s, trail[k], ops[k], trail[k + 1], ids[k]);
    IssuedGeneration(b.discards, ids[k]);
    GenerationRepeats(b.discards[i], c.discards[i]);
    NumberedAt(b, i);
    NumberedAt(c, i);
  }

  lemma NumberedAt(c: Content, i: nat)
    requires Numbered(c) && i < |c.cells|
    ensures i < |c.discards| && (c.cells[i].Some? ==> c.cells[i].value.0 == Generation(c.discards[i]))
  {
  }

  /** An id that was removed leads nowhere until its slot was discarded another 1022 times. */
  lemma RemovedFor(s: Setup, ops: seq<AtlasOp>, trail: seq<State>, ids: seq<int>, k: nat, m: nat)
    requires Trail(s, ops, trail, ids) && Numbered(trail[0].content) && k < m <= |ops|
    requires ops[k].RemoveCustomRect? && Leads(trail[k].content, ops[k].id) && Legal(trail[k].content, ops[k])
    requires Leads(trail[m].content, ops[k].id)
    ensures var i := IndexOf(ops[k].id);
            && i < |trail[k].content.discards| && i < |trail[m].content.discards|
            && trail[m].content.discards[i] >= trail[k].content.discards[i] + 1023
  {
    hide CellSize, Generation, Unclaimed, Numbered;
    var i, b, c := IndexOf(ops[k].id), trail[k].content, trail[m].content;
    TrailLasts(s, ops, trail, ids, 0, k);
    TrailLasts(s, ops, trail, ids, k + 1, m) by { TrailLasts(s, ops, trail, ids, 0, k + 1); }
    assert Moves(s, trail[k], ops[k], trail[k + 1], ids[k]);
    NumberedAt(b, i);
    NumberedAt(c, i);
    assert b.discards[i] < c.discards[i];
    GenerationRepeats(b.discards[i], c.discards[i]);
  }

  /** The same id is not handed out twice until its slot was discarded 1023 times in between. */
  lemma IdsDiffer(s: Setup, ops: seq<AtlasOp>, trail: seq<State>, ids: seq<int>, k: nat, m: nat)
    requires Trail(s, ops, trail, ids) && Numbered(trail[0].content) && k < m < |ops|
    requires ids[k] == ids[m] != INVALID
    ensures var i := IndexOf(ids[k]);
            && i < |trail[k + 1].content.discards| && i < |trail[m + 1].content.discards|
            && trail[m + 1].content.discards[i] >= trail[k + 1].content.discards[i] + 1023
  {
    hide CellSize, Generation, Numbered, Moves;
    var i, b, c := IndexOf(ids[k]), trail[k + 1].content, trail[m + 1].content;
    TrailLasts(s, ops, trail, ids, 0, k + 1);
    TrailLasts(s, ops, trail, ids, k + 1, m);
    HandedOut(s, trail[k], ops[k], trail[k + 1], ids[k]);
    HandedOut(s, trail[m], ops[m], trail[m + 1], ids[m]);
    IssuedGeneration(b.discards, ids[k]);
    IssuedGeneration(c.discards, ids[m]);
    SlotWasFree(s, trail[k + 1].content, trail[m], ops[m], trail[m + 1], ids[m]);
    GenerationRepeats(b.discards[i], c.discards[i]);
  }

  /** A slot that is taken was discarded since it was last in use. */
  lemma SlotWasFree(s: Setup, a: Content, b: State, op: AtlasOp, c: State, id: int)
    requires Limits(s) && Shapely(b) && Moves(s, b, op, c, id) && id != INVALID
    requires Lasts(a, b.content) && IndexOf(id) < |a.cells| && a.cells[IndexOf(id)].Some?
    ensures IndexOf(id) < |a.discards| && IndexOf(id) < |c.content.discards|
      && a.discards[IndexOf(id)] < c.content.discards[IndexOf(id)]
  {
    hide Freed, KeptFor, Adding, Spaced, Repacked, Packed, Generation, Solid, StaleSlots, Unclaimed, CellSize, Issued;
    hide Blockish;
    match op
    case AddCustomRect(w, h) =>
      KeptLasts(s, b, w, h);
      LastsStill(a, b.content, KeptFor(s, b.store, b.content, w, h));
    case LoadGlyph(w, h) =>
      KeptLasts(s, b, w, h);
      LastsStill(a, b.content, KeptFor(s, b.store, b.content, w, h));
    case _ =>
  }

  /** Different ids that were handed out in a run and lead somewhere at its end lead to rectangles
      that keep clear of each other. */
  lemma LiveIdsApart(a: Atlas, ops: seq<AtlasOp>, trail: seq<State>, ids: seq<int>, k: nat, m: nat)
    requires a.Valid() && Trail(a.setup, ops, trail, ids) && trail[|ops|] == StateOf(a)
    requires k < |ops| && m < |ops| && ids[k] != INVALID && ids[m] != INVALID && ids[k] != ids[m]
    requires Leads(a.Held(), ids[k]) && Leads(a.Held(), ids[m])
    ensures a.table.Resolves(ids[k]) && a.table.Resolves(ids[m])
    ensures var i, j := a.table.index[IndexOf(ids[k])].target, a.table.index[IndexOf(ids[m])].target;
            0 <= i < |a.table.rects| && 0 <= j < |a.table.rects| && i != j
                && Disjoint(a.table.rects[i], a.table.rects[j])
  {
    hide Moves, Shapely, InTexture, GlyphsOk, DistinctGlyphs, FreeList, Generations, UsedCount, LiveArea, MakeId;
    LeadsSame(a, ids[k]);
    LeadsSame(a, ids[m]);
    FormOf(a.setup, ops, trail, ids, k);
    FormOf(a.setup, ops, trail, ids, m);
    assert IndexOf(ids[k]) != IndexOf(ids[m]);
    OthersApart(a.table.index, a.table.rects, a.packer.boxes, IndexOf(ids[m]), a.table.padding, a.texData.width,
        a.texData.height);
    DistinctTargets(a.table.index, a.table.rects, IndexOf(ids[k]), IndexOf(ids[m]));
  }

  lemma FormOf(s: Setup, ops: seq<AtlasOp>, trail: seq<State>, ids: seq<int>, k: nat)
    requires Trail(s, ops, trail, ids) && k < |ops| && ids[k] != INVALID
    ensures ids[k] == MakeId(IndexOf(ids[k]), GenerationOf(ids[k]))
  {
    hide Moves;
    HandedOut(s, trail[k], ops[k], trail[k + 1], ids[k]);
    IssuedGeneration(trail[k + 1].content.discards, ids[k]);
  }

  lemma DistinctTargets(index: seq<Entry>, rects: seq<Rect>, i: nat, j: nat)
    requires Targets(index, rects) && i < |index| && j < |index| && i != j && index[i].used && index[j].used
    ensures index[i].target != index[j].target
  {
  }

  /** What these results start from holds of every atlas in order. */
  lemma NumberedNow(a: Atlas)
    requires a.Valid()
    ensures Numbered(a.Held())
  {
    hide InTexture, GlyphsOk, DistinctGlyphs, FreeList, UsedCount, LiveArea, Targets, LockStep, Packing;
  }
}
