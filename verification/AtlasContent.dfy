/** What an atlas holds, as seen through its ids: entries with their pixels, and cached glyphs. */
module AtlasContents {
  import opened Options
  import opened Textures
  import opened AtlasRects
  import opened AtlasPacking

  /** A cached glyph: its rectangle's id (or -1) and that rectangle's texture coordinates.
      `stale` glyphs belong to sizes that have not been used lately. */
  datatype Glyph = Glyph(packId: int, u0: real, v0: real, u1: real, v1: real, stale: bool)

  /** An entry's part in the picture: its generation and its pixels, or None when unused. */
  type Cell = Option<(nat, Image)>

  /** The entries, how often each was discarded, those not in use in the order in which they will
      be taken, and the glyphs without their coordinates. */
  datatype Content = Content(cells: seq<Cell>, discards: seq<nat>, free: seq<nat>, glyphs: seq<Glyph>)

  function Bare(g: Glyph): Glyph { g.(u0 := 0.0, v0 := 0.0, u1 := 0.0, v1 := 0.0) }

  function Bares(gs: seq<Glyph>): seq<Glyph> {
    seq(|gs|, k requires 0 <= k < |gs| => Bare(gs[k]))
  }

  /** The same glyphs, perhaps with other texture coordinates. */
  ghost predicate SameGlyphs(a: seq<Glyph>, b: seq<Glyph>) {
    |a| == |b| && forall k :: 0 <= k < |a| ==> a[k].packId == b[k].packId && a[k].stale == b[k].stale
  }

  lemma SameBares(a: seq<Glyph>, b: seq<Glyph>)
    requires SameGlyphs(a, b)
    ensures Bares(a) == Bares(b)
  {
  }

  /** No two glyphs share a rectangle. */
  ghost predicate DistinctGlyphs(gs: seq<Glyph>) {
    forall i, j :: 0 <= i < j < |gs| && gs[i].packId != INVALID && gs[j].packId != INVALID ==>
      IndexOf(gs[i].packId) != IndexOf(gs[j].packId)
  }

  lemma SameDistinct(a: seq<Glyph>, b: seq<Glyph>)
    requires SameGlyphs(a, b) && DistinctGlyphs(a)
    ensures DistinctGlyphs(b)
  {
  }

  /** No glyph has the rectangle of entry `i`. */
  predicate Unclaimed(gs: seq<Glyph>, i: nat) {
    forall k :: 0 <= k < |gs| && gs[k].packId != INVALID ==> IndexOf(gs[k].packId) != i
  }

  lemma BareUnclaimed(gs: seq<Glyph>, i: nat)
    ensures Unclaimed(Bares(gs), i) <==> Unclaimed(gs, i)
  {
    if Unclaimed(Bares(gs), i) {
      forall k | 0 <= k < |gs| && gs[k].packId != INVALID ensures IndexOf(gs[k].packId) != i {
        assert Bares(gs)[k].packId == gs[k].packId;
      }
    }
  }

  function Without(gs: seq<Glyph>, p: nat): seq<Glyph>
    requires p < |gs|
  {
    gs[..p] + gs[p + 1..]
  }

  // --------------------------------------------------------------- giving up

  /** The glyphs that were used lately. */
  function Recent(gs: seq<Glyph>): seq<Glyph> {
    if gs == [] then []
    else Recent(gs[..|gs| - 1]) + if gs[|gs| - 1].stale then [] else [gs[|gs| - 1]]
  }

  /** The entry of a glyph that was not used lately. */
  function StaleSlot(g: Glyph): set<nat> { if g.stale && g.packId != INVALID then {IndexOf(g.packId)} else {} }

  /** The entries of all those glyphs. */
  function StaleSlots(gs: seq<Glyph>): set<nat> {
    if gs == [] then {} else StaleSlots(gs[..|gs| - 1]) + StaleSlot(gs[|gs| - 1])
  }

  /** The free list after the stale glyphs gave up their entries one after another. */
  function FreeAfter(gs: seq<Glyph>, free: seq<nat>): seq<nat> {
    if gs == [] then free
    else
      var g := gs[|gs| - 1];
      (if g.stale && g.packId != INVALID then [IndexOf(g.packId)] else []) + FreeAfter(gs[..|gs| - 1], free)
  }

  lemma {:induction false} BareFree(gs: seq<Glyph>, free: seq<nat>)
    ensures FreeAfter(Bares(gs), free) == FreeAfter(gs, free)
  {
    if gs != [] {
      BareFree(gs[..|gs| - 1], free);
      assert Bares(gs)[..|gs| - 1] == Bares(gs[..|gs| - 1]);
    }
  }

  lemma {:induction false} SameStale(a: seq<Glyph>, b: seq<Glyph>)
    requires SameGlyphs(a, b)
    ensures StaleSlots(a) == StaleSlots(b)
  {
    if a != [] {
      SameStale(a[..|a| - 1], b[..|b| - 1]);
    }
  }

  lemma BareStale(gs: seq<Glyph>)
    ensures StaleSlots(Bares(gs)) == StaleSlots(gs)
  {
    SameStale(Bares(gs), gs);
  }

  lemma {:induction false} NoneStale(gs: seq<Glyph>, free: seq<nat>)
    requires forall k :: 0 <= k < |gs| ==> !gs[k].stale
    ensures StaleSlots(gs) == {} && FreeAfter(gs, free) == free && Recent(gs) == gs
  {
    if gs != [] {
      NoneStale(gs[..|gs| - 1], free);
    }
  }

  lemma StaleMore(gs: seq<Glyph>, g: Glyph)
    ensures StaleSlots(gs + [g]) == StaleSlots(gs) + StaleSlot(g)
  {
    assert (gs + [g])[..|gs|] == gs;
  }

  /** A slot is stale exactly if a glyph that was not used lately has it. */
  lemma {:induction false} InStale(gs: seq<Glyph>, i: nat)
    ensures i in StaleSlots(gs) <==>
        exists k :: 0 <= k < |gs| && gs[k].stale && gs[k].packId != INVALID && IndexOf(gs[k].packId) == i
  {
    if gs != [] {
      var front := gs[..|gs| - 1];
      InStale(front, i);
      assert forall k :: 0 <= k < |front| ==> front[k] == gs[k];
    }
  }

  /** Discarded once more in each of the given slots. */
  ghost function Bumped(discards: seq<nat>, slots: set<nat>): (r: seq<nat>)
    ensures |r| == |discards|
  {
    seq(|discards|, i requires 0 <= i < |discards| => if i in slots then discards[i] + 1 else discards[i])
  }

  /** `c` after the entries of the glyphs that were not used lately were given up, and with them
      those glyphs. */
  ghost function Freed(c: Content): (f: Content)
    ensures |f.cells| == |c.cells| && |f.discards| == |c.discards|
  {
    Content(Spared(c.cells, StaleSlots(c.glyphs)), Bumped(c.discards, StaleSlots(c.glyphs)),
            FreeAfter(c.glyphs, c.free), Recent(c.glyphs))
  }

  /** Nothing is given up yet. */
  lemma SparedNone<T>(xs: seq<Option<T>>, discards: seq<nat>)
    ensures Spared(xs, {}) == xs && Bumped(discards, {}) == discards
  {
  }

  /** One slot after the other. */
  lemma SparedOne<T>(xs: seq<Option<T>>, slots: set<nat>, i: nat)
    ensures Spared(xs, slots + {i}) == if i < |xs| then Spared(xs, slots)[i := None] else Spared(xs, slots)
  {
  }

  lemma BumpedOne(discards: seq<nat>, slots: set<nat>, i: nat)
    requires i < |discards| && i !in slots
    ensures Bumped(discards, slots + {i}) == Bumped(discards, slots)[i := Bumped(discards, slots)[i] + 1]
  {
  }

  /** A glyph's entry is not that of one before it. */
  lemma OwnSlot(gs: seq<Glyph>, k: nat)
    requires k < |gs| && gs[k].packId != INVALID && DistinctGlyphs(gs)
    ensures IndexOf(gs[k].packId) !in StaleSlots(gs[..k])
  {
    InStale(gs[..k], IndexOf(gs[k].packId));
  }

  /** What one glyph more adds to all that. */
  lemma OneMoreGlyph(gs: seq<Glyph>, g: Glyph, free: seq<nat>)
    ensures var gone := g.stale && g.packId != INVALID;
            && Recent(gs + [g]) == (if g.stale then Recent(gs) else Recent(gs) + [g])
            && FreeAfter(gs + [g], free) ==
                (if gone then [IndexOf(g.packId)] + FreeAfter(gs, free) else FreeAfter(gs, free))
            && StaleSlots(gs + [g]) == (if gone then StaleSlots(gs) + {IndexOf(g.packId)} else StaleSlots(gs))
  {
    hide IndexOf;
    var all := gs + [g];
    assert all[..|all| - 1] == gs && all[|all| - 1] == g;
  }

  /** The glyph's turn among those that are left. */
  lemma TurnOf(gs: seq<Glyph>, k: nat, kept: seq<Glyph>)
    requires k < |gs|
    ensures gs[..k + 1] == gs[..k] + [gs[k]] && kept + gs[k..] == kept + [gs[k]] + gs[k + 1..]
  {
  }

  lemma WithoutMiddle(front: seq<Glyph>, g: Glyph, rest: seq<Glyph>)
    ensures var all := front + [g] + rest;
            |front| < |all| && all[|front|] == g && Without(all, |front|) == front + rest
  {
    var all := front + [g] + rest;
    assert all[..|front|] == front && all[|front| + 1..] == rest;
  }

  lemma ErasedFreed(c: Content, gs: seq<Glyph>)
    requires c.glyphs == Bares(gs)
    ensures Freed(c) ==
        Content(Spared(c.cells, StaleSlots(gs)), Bumped(c.discards, StaleSlots(gs)), FreeAfter(gs, c.free),
        Bares(Recent(gs)))
  {
    BareStale(gs);
    BareRecent(gs);
    BareFree(gs, c.free);
  }

  lemma {:induction false} BareRecent(gs: seq<Glyph>)
    ensures Bares(Recent(gs)) == Recent(Bares(gs))
  {
    if gs != [] {
      BareRecent(gs[..|gs| - 1]);
      assert Bares(gs)[..|gs| - 1] == Bares(gs[..|gs| - 1]);
    }
  }

  /** Once the stale glyphs are gone, there is nothing more to give up. */
  lemma FreedTwice(c: Content)
    ensures Freed(Freed(c)) == Freed(c) && StaleSlots(Freed(c).glyphs) == {}
  {
    var f := Freed(c);
    RecentNotStale(c.glyphs);
    NoneStale(f.glyphs, f.free);
    SparedNone(f.cells, f.discards);
  }

  lemma {:induction false} RecentNotStale(gs: seq<Glyph>)
    ensures forall k :: 0 <= k < |Recent(gs)| ==> !Recent(gs)[k].stale
  {
    if gs != [] {
      RecentNotStale(gs[..|gs| - 1]);
    }
  }

  // -------------------------------------------------------------------- sizes

  function CellSize(rows: Image): Size { (if rows == [] then 0 else |rows[0]|, |rows|) }

  /** Pixels of one colour. */
  function Solid(w: nat, h: nat, colour: nat): Image { seq(h, y => seq(w, x => colour)) }

  // ------------------------------------------------------------------- adding

  /** Pixels of a rectangle of this size. */
  predicate Blockish(rows: Image, w: nat, h: nat) {
    |rows| == h && forall y :: 0 <= y < h ==> |rows[y]| == w
  }

  /** The slot that is taken next. */
  function NextSlot(c: Content): nat { if c.free == [] then |c.cells| else c.free[0] }

  /** What is kept when a rectangle is added: all, if there is room or no space can be made, or else
      what is not stale. */
  ghost function KeptFor(s: Setup, st: Store, c: Content, w: nat, h: nat): (k: Content)
    ensures |k.cells| == |c.cells| && |k.discards| == |c.discards|
  {
    if st.locked || PlaceIn(s, st, w, h).Some? then c else Freed(c)
  }

  /** `c` is `base` with a new entry, to which `id` leads. It takes the next slot, which was not in
      use. Without an id there is nothing new. */
  ghost predicate Entered(base: Content, c: Content, id: int) {
    if id == INVALID then c == base
    else
      var i := IndexOf(id);
      && |base.cells| == |base.discards| && c.glyphs == base.glyphs
      && i == NextSlot(base) <= |base.cells| && (i < |base.cells| ==> base.cells[i] == None)
      && c.free == (if base.free == [] then [] else base.free[1..])
      && |c.cells| == |c.discards| == Max(|base.cells|, i + 1)
      && (forall j :: 0 <= j < |base.cells| && j != i ==> c.cells[j] == base.cells[j])
      && c.discards == (if i == |base.discards| then base.discards + [0] else base.discards)
      && Issued(c.discards, id)
      && c.cells[i].Some? && c.cells[i].value.0 == GenerationOf(id)
  }

  lemma EnteredNothing(base: Content, c: Content)
    ensures Entered(base, c, INVALID) <==> c == base
  {
  }
}
