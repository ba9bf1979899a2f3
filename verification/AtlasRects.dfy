/** The atlas's rectangle table: generational ids over a free list of index entries. */
module AtlasRects {
  import opened Options
  import opened Textures

  /** `target` is the rectangle of a used entry, and the next free entry (or -1) of an unused one. */
  datatype Entry = Entry(target: int, generation: nat, used: bool)

  const INVALID: int := -1
  const INDEX_RANGE: nat := 0x8_0000
  const GENERATION_RANGE: nat := 0x400
  const SHIFT: nat := 0x10_0000

  /** The bits of a 32-bit id. */
  function Bits(id: int): nat { id % 0x1_0000_0000 }

  function IndexOf(id: int): nat { Bits(id) % INDEX_RANGE }

  function GenerationOf(id: int): nat { Bits(id) / SHIFT % GENERATION_RANGE }

  function MakeId(index: nat, generation: nat): int { index + generation * SHIFT }

  lemma IdRoundTrip(index: nat, generation: nat)
    requires index < INDEX_RANGE && generation < GENERATION_RANGE
    ensures IndexOf(MakeId(index, generation)) == index && GenerationOf(MakeId(index, generation)) == generation
    ensures MakeId(index, generation) != INVALID
  {
    var id := MakeId(index, generation);
    BitsOf(id);
    IndexPart(2 * generation, index);
    GenerationPart(generation, index);
  }

  lemma BitsOf(id: nat)
    requires id < 0x1_0000_0000
    ensures Bits(id) == id
  {
  }

  lemma IndexPart(q: nat, index: nat)
    requires index < INDEX_RANGE
    ensures (index + q * INDEX_RANGE) % INDEX_RANGE == index
  {
  }

  lemma GenerationPart(generation: nat, index: nat)
    requires index < SHIFT && generation < GENERATION_RANGE
    ensures (index + generation * SHIFT) / SHIFT % GENERATION_RANGE == generation
  {
    assert (index + generation * SHIFT) / SHIFT == generation;
  }

  /** An index leads back to itself exactly if it fits the 19 bits of the mask. */
  lemma IndexFits(index: nat, generation: nat)
    requires index < SHIFT && generation < GENERATION_RANGE
    ensures IndexOf(MakeId(index, generation)) == index <==> index < INDEX_RANGE
  {
    BitsOf(MakeId(index, generation));
    if index < INDEX_RANGE {
      IndexPart(2 * generation, index);
    }
  }

  // -------------------------------------------------------------- generations

  /** 10 bits, skipping zero on overflow. */
  function NextGeneration(g: nat): nat {
    var n := (g + 1) % GENERATION_RANGE;
    if n == 0 then 1 else n
  }

  /** The generation of a slot whose rectangles were discarded `k` times. */
  function Generation(k: nat): nat {
    if k == 0 then 0 else NextGeneration(Generation(k - 1))
  }

  lemma {:induction false} GenerationClosed(k: nat)
    requires k > 0
    ensures Generation(k) == (k - 1) % 1023 + 1
  {
    hide NextGeneration;
    if k > 1 {
      GenerationClosed(k - 1);
      CycleStep(k - 2);
      NextInCycle((k - 2) % 1023);
    } else {
      assert Generation(0) == 0;
      NextOfZero();
    }
  }

  lemma NextOfZero()
    ensures NextGeneration(0) == 1
  {
  }

  lemma NextInCycle(r: nat)
    requires r < 1023
    ensures NextGeneration(r + 1) == if r == 1022 then 1 else r + 2
  {
  }

  lemma CycleStep(n: nat)
    ensures (n + 1) % 1023 == if n % 1023 == 1022 then 0 else n % 1023 + 1
  {
  }

  /** A slot carries the same generation again exactly when its counter has gone round in full,
      and never the first one again. */
  lemma GenerationRepeats(d: nat, e: nat)
    requires d <= e
    ensures Generation(d) == Generation(e) <==> d == e || (d > 0 && (e - d) % 1023 == 0)
  {
    hide Generation;
    GenerationZero();
    if d > 0 {
      GenerationClosed(d);
      GenerationClosed(e);
      SameRemainder(d - 1, e - 1, 1023);
    } else if e > 0 {
      GenerationClosed(e);
    }
  }

  lemma GenerationZero()
    ensures Generation(0) == 0
  {
  }

  lemma SameRemainder(a: nat, b: nat, m: nat)
    requires a <= b && m == 1023
    ensures a % m == b % m <==> (b - a) % m == 0
  {
  }

  lemma {:induction false} GenerationRange(k: nat)
    ensures Generation(k) < GENERATION_RANGE && (k > 0 ==> Generation(k) > 0)
  {
    if k > 0 {
      GenerationClosed(k);
    }
  }

  // ------------------------------------------------------------------ counting

  function UsedCount(index: seq<Entry>): nat {
    if index == [] then 0
    else UsedCount(index[..|index| - 1]) + if index[|index| - 1].used then 1 else 0
  }

  /** The padded area of an entry's rectangle. */
  function Area(e: Entry, rects: seq<Rect>, pad: nat): nat {
    if e.used && 0 <= e.target < |rects| then (rects[e.target].w + pad) * (rects[e.target].h + pad) else 0
  }

  function LiveArea(index: seq<Entry>, rects: seq<Rect>, pad: nat): nat {
    if index == [] then 0
    else LiveArea(index[..|index| - 1], rects, pad) + Area(index[|index| - 1], rects, pad)
  }

  lemma {:induction false} UsedCountUpdate(index: seq<Entry>, i: nat, e: Entry)
    requires i < |index|
    ensures UsedCount(index[i := e]) == UsedCount(index) - (if index[i].used then 1 else 0) + (if e.used then 1 else 0)
  {
    var front := index[..|index| - 1];
    if i < |front| {
      UsedCountUpdate(front, i, e);
      assert index[i := e][..|index| - 1] == front[i := e];
    } else {
      assert index[i := e][..|index| - 1] == front;
    }
  }

  /** Two tables whose entries have the same areas, except perhaps entry `i`. */
  lemma {:induction false} LiveAreaUpdate(a: seq<Entry>, b: seq<Entry>, rects: seq<Rect>, rects': seq<Rect>, pad: nat,
      i: nat)
    requires |a| == |b| && i < |a|
    requires forall j :: 0 <= j < |a| && j != i ==> Area(a[j], rects, pad) == Area(b[j], rects', pad)
    ensures LiveArea(b, rects', pad) == LiveArea(a, rects, pad) - Area(a[i], rects, pad) + Area(b[i], rects', pad)
  {
    if i < |a| - 1 {
      LiveAreaUpdate(a[..|a| - 1], b[..|b| - 1], rects, rects', pad, i);
    } else {
      LiveAreaSame(a[..|a| - 1], b[..|b| - 1], rects, rects', pad);
    }
  }

  lemma {:induction false} LiveAreaSame(a: seq<Entry>, b: seq<Entry>, rects: seq<Rect>, rects': seq<Rect>, pad: nat)
    requires |a| == |b|
    requires forall j :: 0 <= j < |a| ==> Area(a[j], rects, pad) == Area(b[j], rects', pad)
    ensures LiveArea(b, rects', pad) == LiveArea(a, rects, pad)
  {
    if a != [] {
      LiveAreaSame(a[..|a| - 1], b[..|b| - 1], rects, rects', pad);
    }
  }

  // ----------------------------------------------------------------- the table

  /** Following the unused entries' targets from `start` visits `free` and ends. */
  ghost predicate Chain(index: seq<Entry>, start: int, free: seq<nat>)
    decreases |free|
  {
    if free == [] then start == -1
    else start == free[0] < |index| && !index[start].used && Chain(index, index[start].target, free[1..])
  }

  /** The free list from `start` is `free`: acyclic, and exactly the unused entries. */
  ghost predicate FreeList(index: seq<Entry>, start: int, free: seq<nat>) {
    && Chain(index, start, free)
    && (forall i, j :: 0 <= i < j < |free| ==> free[i] != free[j])
    && (forall k :: 0 <= k < |index| && !index[k].used ==> k in free)
  }

  /** Used entries point to distinct rectangles, of positive 16-bit sizes. */
  ghost predicate Targets(index: seq<Entry>, rects: seq<Rect>) {
    && (forall i :: 0 <= i < |index| && index[i].used ==>
          0 <= index[i].target < |rects| && 0 < rects[index[i].target].w <= 0xFFFF
              && 0 < rects[index[i].target].h <= 0xFFFF)
    && forall i, j :: 0 <= i < j < |index| && index[i].used && index[j].used ==> index[i].target != index[j].target
  }

  /** Every entry's generation is the one its number of discards calls for. */
  ghost predicate Generations(index: seq<Entry>, discards: seq<nat>) {
    && |discards| == |index|
    && forall i :: 0 <= i < |index| ==>
         && index[i].generation == Generation(discards[i])
         && (!index[i].used ==> discards[i] > 0)
  }

  lemma {:induction false} ChainUnused(index: seq<Entry>, start: int, free: seq<nat>)
    requires Chain(index, start, free)
    ensures forall i :: 0 <= i < |free| ==> free[i] < |index| && !index[free[i]].used
    decreases |free|
  {
    if free != [] {
      ChainUnused(index, index[start].target, free[1..]);
      forall i | 0 <= i < |free| ensures free[i] < |index| && !index[free[i]].used {
        if i > 0 { assert free[i] == free[1..][i - 1]; }
      }
    }
  }

  lemma {:induction false} ChainElsewhere(index: seq<Entry>, start: int, free: seq<nat>, i: nat, e: Entry)
    requires Chain(index, start, free) && i < |index| && i !in free
    ensures Chain(index[i := e], start, free)
    decreases |free|
  {
    if free != [] {
      ChainElsewhere(index, index[start].target, free[1..], i, e);
    }
  }

  /** Taking the first entry off the free list, and putting one back in front. */
  lemma FreePop(index: seq<Entry>, start: int, free: seq<nat>, e: Entry)
    requires FreeList(index, start, free) && free != [] && e.used
    ensures 0 <= start < |index| && start == free[0] && !index[start].used
    ensures FreeList(index[start := e], index[start].target, free[1..])
  {
    var index', free' := index[start := e], free[1..];
    assert start !in free';
    ChainElsewhere(index, index[start].target, free', start, e);
    forall k | 0 <= k < |index'| && !index'[k].used ensures k in free' {
      assert k in free;
    }
  }

  lemma FreePush(index: seq<Entry>, start: int, free: seq<nat>, i: nat, g: nat)
    requires FreeList(index, start, free) && i < |index| && index[i].used
    ensures FreeList(index[i := Entry(start, g, false)], i, [i] + free)
  {
    var index', free' := index[i := Entry(start, g, false)], [i] + free;
    ChainUnused(index, start, free);
    ChainElsewhere(index, start, free, i, Entry(start, g, false));
    assert free'[1..] == free;
    forall a, b | 0 <= a < b < |free'| ensures free'[a] != free'[b] {
      assert free'[b] == free[b - 1] && (a > 0 ==> free'[a] == free[a - 1]);
    }
    forall k | 0 <= k < |index'| && !index'[k].used ensures k in free' {
      if k != i { assert k in free; }
    }
  }

  lemma FreeGrow(index: seq<Entry>, start: int, e: Entry)
    requires FreeList(index, start, []) && e.used
    ensures FreeList(index + [e], start, [])
  {
  }

  /** `xs` with item `i`, new or not, set to `x`. */
  function Placed<T>(xs: seq<T>, i: nat, x: T): seq<T>
    requires i <= |xs|
  {
    if i == |xs| then xs + [x] else xs[i := x]
  }

  lemma PlacedTargets(index: seq<Entry>, rects: seq<Rect>, i: nat, e: Entry, r: Rect)
    requires Targets(index, rects) && i <= |index| && (i < |index| ==> !index[i].used)
    requires e.used && e.target == |rects| && 0 < r.w <= 0xFFFF && 0 < r.h <= 0xFFFF
    ensures Targets(Placed(index, i, e), rects + [r])
  {
  }

  lemma PlacedCounts(index: seq<Entry>, rects: seq<Rect>, i: nat, e: Entry, r: Rect, pad: nat)
    requires Targets(index, rects) && i <= |index| && (i < |index| ==> !index[i].used)
    requires e.used && e.target == |rects| && 0 < r.w <= 0xFFFF && 0 < r.h <= 0xFFFF
    ensures Targets(Placed(index, i, e), rects + [r])
    ensures UsedCount(Placed(index, i, e)) == UsedCount(index) + 1
    ensures LiveArea(Placed(index, i, e), rects + [r], pad) == LiveArea(index, rects, pad) + (r.w + pad) * (r.h + pad)
  {
    hide Targets, Area, UsedCount, LiveArea;
    var b := Placed(index, i, e);
    PlacedTargets(index, rects, i, e, r);
    AreasStay(index, rects, r, pad);
    if i == |index| {
      LastCounts(index, rects + [r], e, pad);
      LiveAreaSame(index, index, rects, rects + [r], pad);
    } else {
      UsedCountUpdate(index, i, e);
      LiveAreaUpdate(index, b, rects, rects + [r], pad, i);
    }
    NewArea(if i < |index| then index[i] else Entry(-1, 0, false), e, rects, r, pad);
  }

  lemma AreasStay(index: seq<Entry>, rects: seq<Rect>, r: Rect, pad: nat)
    requires Targets(index, rects)
    ensures forall j :: 0 <= j < |index| ==> Area(index[j], rects, pad) == Area(index[j], rects + [r], pad)
  {
  }

  lemma NewArea(unused: Entry, e: Entry, rects: seq<Rect>, r: Rect, pad: nat)
    requires !unused.used && e.used && e.target == |rects|
    ensures Area(unused, rects, pad) == 0 && Area(e, rects + [r], pad) == (r.w + pad) * (r.h + pad)
  {
  }

  lemma LastCounts(index: seq<Entry>, rects: seq<Rect>, e: Entry, pad: nat)
    ensures UsedCount(index + [e]) == UsedCount(index) + if e.used then 1 else 0
    ensures LiveArea(index + [e], rects, pad) == LiveArea(index, rects, pad) + Area(e, rects, pad)
  {
    assert (index + [e])[..|index|] == index;
  }

  lemma DiscardCounts(index: seq<Entry>, rects: seq<Rect>, i: nat, e: Entry, pad: nat)
    requires Targets(index, rects) && i < |index| && index[i].used && !e.used
    ensures 0 <= index[i].target < |rects|
    ensures var rects' := rects[index[i].target := rects[index[i].target].(w := 0, h := 0)];
            && Targets(index[i := e], rects')
            && LiveArea(index[i := e], rects', pad) == LiveArea(index, rects, pad) - Area(index[i], rects, pad)
    ensures UsedCount(index[i := e]) == UsedCount(index) - 1
  {
    var t := index[i].target;
    var rects' := rects[t := rects[t].(w := 0, h := 0)];
    UsedCountUpdate(index, i, e);
    assert forall j :: 0 <= j < |index| && j != i && index[j].used ==> index[j].target != t;
    LiveAreaUpdate(index, index[i := e], rects, rects', pad, i);
  }

  lemma GenerationsPlaced(index: seq<Entry>, discards: seq<nat>, i: nat, e: Entry)
    requires Generations(index, discards) && i <= |index| && e.used
    requires e.generation == if i == |index| then 0 else index[i].generation
    ensures Generations(Placed(index, i, e), if i == |index| then discards + [0] else discards)
  {
    assert Generation(0) == 0;
  }

  lemma GenerationsDiscarded(index: seq<Entry>, discards: seq<nat>, i: nat, e: Entry)
    requires Generations(index, discards) && i < |index|
    requires e.generation == NextGeneration(index[i].generation)
    ensures Generations(index[i := e], discards[i := discards[i] + 1])
  {
    assert Generation(discards[i] + 1) == NextGeneration(Generation(discards[i]));
  }

  lemma EmptyTable(index: seq<Entry>, rects: seq<Rect>, discards: seq<nat>, pad: nat)
    requires |index| == |discards| == 0
    ensures FreeList(index, -1, []) && Targets(index, rects) && Generations(index, discards)
    ensures UsedCount(index) == 0 && LiveArea(index, rects, pad) == 0
  {
  }

  /** No slot has been discarded less often than before. */
  ghost predicate Older(before: seq<nat>, now: seq<nat>) {
    |before| <= |now| && forall j :: 0 <= j < |before| ==> before[j] <= now[j]
  }

  /** An id as it is handed out for its slot, given how often that was discarded before. */
  predicate Issued(discards: seq<nat>, id: int) {
    IndexOf(id) < |discards| && id == MakeId(IndexOf(id), Generation(discards[IndexOf(id)]))
  }

  class RectTable {
    const padding: nat
    var rects: seq<Rect>
    var index: seq<Entry>
    var freeStart: int
    var packedCount: nat
    var packedSurface: int
    var discardedCount: nat
    var discardedSurface: int
    ghost var free: seq<nat>
    ghost var discards: seq<nat>

    /** What the ids rest on. */
    ghost predicate Linked()
      reads this`index, this`freeStart, this`free, this`rects, this`discards
    {
      && |index| <= INDEX_RANGE
      && FreeList(index, freeStart, free) && Targets(index, rects) && Generations(index, discards)
    }

    /** The sums are right as well. */
    ghost predicate Valid()
      reads this
    {
      && Linked()
      && UsedCount(index) + discardedCount == |rects| == packedCount
      && packedSurface - discardedSurface == LiveArea(index, rects, padding) && discardedSurface >= 0
    }

    constructor (padding: nat)
      ensures Valid() && rects == [] && index == [] && freeStart == -1 && free == [] && discards == []
        && this.padding == padding
      ensures packedCount == discardedCount == 0 && packedSurface == discardedSurface == 0
    {
      hide FreeList, Targets, Generations, UsedCount, LiveArea;
      EmptyTable([], [], [], padding);
      this.padding := padding;
      rects, index, freeStart := [], [], -1;
      packedCount, packedSurface, discardedCount, discardedSurface := 0, 0, 0, 0;
      free, discards := [], [];
    }

    /** The entry an id leads to is used and of the id's generation. */
    predicate Resolves(id: int)
      reads this
    {
      && id != INVALID
      && IndexOf(id) < |index|
      && index[IndexOf(id)].generation == GenerationOf(id)
      && index[IndexOf(id)].used
    }

    /** The rectangle of an id, or None when it is invalid, unknown, discarded or outdated. */
    method GetRectSafe(id: int) returns (r: Option<Rect>)
      requires Valid()
      ensures r.Some? <==> Resolves(id)
      ensures r.Some? ==> r.value == rects[index[IndexOf(id)].target] && r.value.w > 0 && r.value.h > 0
    {
      if id == INVALID {
        return None;
      }
      var i := IndexOf(id);
      if i >= |index| {
        return None;
      }
      var e := index[i];
      if e.generation != GenerationOf(id) || !e.used {
        return None;
      }
      return Some(rects[e.target]);
    }

    /** Different ids that were handed out for live rectangles lead to different rectangles. */
    lemma LiveIdsInjective(i: nat, g: nat, j: nat, h: nat)
      requires Valid() && i < INDEX_RANGE && j < INDEX_RANGE && g < GENERATION_RANGE && h < GENERATION_RANGE
      requires Resolves(MakeId(i, g)) && Resolves(MakeId(j, h))
      requires index[IndexOf(MakeId(i, g))].target == index[IndexOf(MakeId(j, h))].target
      ensures MakeId(i, g) == MakeId(j, h)
    {
      hide FreeList, Generations, UsedCount, LiveArea, MakeId, IndexOf, GenerationOf;
      IdRoundTrip(i, g);
      IdRoundTrip(j, h);
    }

    /** An id handed out for slot `i` after its `d`-th discard resolves later on exactly when the
        slot is in use and has not been discarded since, or its generation has come round. */
    lemma ResolvesWhen(i: nat, d: nat)
      requires Valid() && i < |index| && d <= discards[i]
      ensures Resolves(MakeId(i, Generation(d))) <==>
              index[i].used && (discards[i] == d || (d > 0 && (discards[i] - d) % 1023 == 0))
    {
      hide FreeList, Targets, UsedCount, LiveArea, MakeId, IndexOf, GenerationOf, Generation;
      GenerationRange(d);
      IdRoundTrip(i, Generation(d));
      GenerationRepeats(d, discards[i]);
    }

    /** Takes an index entry for rectangle `rectIdx`: the first free one, or else a new one. */
    method AllocRectEntry(rectIdx: nat) returns (id: int, ghost i: nat)
      requires FreeList(index, freeStart, free) && Generations(index, discards)
      requires |index| <= INDEX_RANGE && (freeStart < 0 ==> |index| < INDEX_RANGE)
      modifies this`index, this`freeStart, this`free, this`discards
      ensures FreeList(index, freeStart, free) && Generations(index, discards) && |index| <= INDEX_RANGE
      ensures i == (if old(free) == [] then |old(index)| else old(free)[0]) && free == if old(free) == [] then []
          else old(free)[1..]
      ensures i <= |old(index)| && (i < |old(index)| ==> !old(index)[i].used)
      ensures index ==
          Placed(old(index), i, Entry(rectIdx, if i < |old(index)| then old(index)[i].generation else 0, true))
      ensures i < INDEX_RANGE && index[i].generation < GENERATION_RANGE && id == MakeId(i, index[i].generation)
      ensures discards == if i == |old(index)| then old(discards) + [0] else old(discards)
    {
      hide FreeList, Generations;
      var at: nat;
      ghost var ds := discards;
      FreeStart(index, freeStart, free);
      if freeStart < 0 {
        FreeGrow(index, freeStart, Entry(rectIdx, 0, true));
        GenerationsPlaced(index, discards, |index|, Entry(rectIdx, 0, true));
        index := index + [Entry(0, 0, false)];
        at := |index| - 1;
        discards := discards + [0];
        index := index[at := Entry(rectIdx, index[at].generation, true)];
        assert index == old(index) + [Entry(rectIdx, 0, true)];
      } else {
        at := freeStart;
        var e := index[at];
        FreePop(index, freeStart, free, Entry(rectIdx, e.generation, true));
        GenerationsPlaced(index, discards, at, Entry(rectIdx, e.generation, true));
        freeStart := e.target;
        free := free[1..];
        index := index[at := Entry(rectIdx, e.generation, true)];
      }
      i := at;
      id := MakeId(at, index[at].generation);
      GenerationAt(index, discards, at);
    }

    /** A packed rectangle enters the table; every other entry stays as it is. */
    method Insert(r: Rect) returns (id: int)
      requires Linked() && 0 < r.w <= 0xFFFF && 0 < r.h <= 0xFFFF && (freeStart < 0 ==> |index| < INDEX_RANGE)
      modifies this
      ensures Linked() && rects == old(rects) + [r]
      ensures old(Valid()) ==> Valid()
      ensures discardedCount == old(discardedCount) && discardedSurface == old(discardedSurface)
      ensures packedSurface == old(packedSurface) + (r.w + padding) * (r.h + padding)
      ensures Resolves(id) && index[IndexOf(id)].target == |old(rects)|
      ensures |discards| == |index| && Issued(discards, id)
      ensures IndexOf(id) == (if old(free) == [] then |old(index)| else old(free)[0])
      ensures free == if old(free) == [] then [] else old(free)[1..]
      ensures IndexOf(id) <= |old(index)| && (IndexOf(id) < |old(index)| ==> !old(index)[IndexOf(id)].used)
      ensures index == Placed(old(index), IndexOf(id), index[IndexOf(id)])
      ensures discards == if IndexOf(id) == |old(index)| then old(discards) + [0] else old(discards)
    {
      hide FreeList, Generations, Targets, UsedCount, LiveArea;
      GenerationsSize(index, discards);
      packedCount := packedCount + 1;
      packedSurface := packedSurface + (r.w + padding) * (r.h + padding);
      rects := rects + [r];
      ghost var i;
      id, i := AllocRectEntry(|rects| - 1);
      IdRoundTrip(i, index[i].generation);
      GenerationAt(index, discards, i);
      PlacedCounts(old(index), old(rects), i, index[i], r, padding);
    }

    /** Gives an id's rectangle up. The id stops resolving, its slot goes to the front of the
        free list with the next generation, and the rectangle is emptied so that no repack
        takes it along. */
    method DiscardRect(id: int)
      requires Valid() && Resolves(id)
      modifies this
      ensures Valid() && !Resolves(id)
      ensures Older(old(discards), discards)
      ensures freeStart == IndexOf(id) && free == [IndexOf(id)] + old(free)
      ensures discards == old(discards)[IndexOf(id) := old(discards)[IndexOf(id)] + 1]
      ensures |index| == |old(index)| && forall j :: 0 <= j < |index| && j != IndexOf(id) ==> index[j] == old(index)[j]
      ensures !index[IndexOf(id)].used
      ensures 0 <= old(index[IndexOf(id)].target) < |old(rects)|
      ensures rects ==
          old(rects)[old(index[IndexOf(id)].target) := old(rects[index[IndexOf(id)].target]).(w := 0, h := 0)]
      ensures packedSurface == old(packedSurface)
    {
      hide FreeList, Generations, Targets, UsedCount, LiveArea;
      var i := IndexOf(id);
      var e := index[i];
      GenerationsSize(index, discards);
      TargetAt(index, rects, i);
      var rect := rects[e.target];
      var generation := (e.generation + 1) % GENERATION_RANGE;
      if generation == 0 {
        generation := generation + 1;
      }
      ghost var e' := Entry(freeStart, generation, false);
      FreePush(index, freeStart, free, i, generation);
      GenerationsDiscarded(index, discards, i, e');
      DiscardCounts(index, rects, i, e', padding);
      index := index[i := Entry(freeStart, generation, false)];
      freeStart := i;
      free := [i] + free;
      discards := discards[i := discards[i] + 1];
      discardedCount := discardedCount + 1;
      discardedSurface := discardedSurface + (rect.w + padding) * (rect.h + padding);
      rects := rects[e.target := rect.(w := 0, h := 0)];
    }
  }

  lemma FreeStart(index: seq<Entry>, start: int, free: seq<nat>)
    requires FreeList(index, start, free)
    ensures start < 0 <==> free == []
    ensures start >= 0 ==> start < |index| && start == free[0]
  {
  }

  lemma GenerationAt(index: seq<Entry>, discards: seq<nat>, i: nat)
    requires Generations(index, discards) && i < |index|
    ensures |discards| == |index| && index[i].generation == Generation(discards[i]) < GENERATION_RANGE
  {
    GenerationRange(discards[i]);
  }

  lemma GenerationsSize(index: seq<Entry>, discards: seq<nat>)
    requires Generations(index, discards)
    ensures |discards| == |index|
  {
  }

  lemma TargetAt(index: seq<Entry>, rects: seq<Rect>, i: nat)
    requires Targets(index, rects) && i < |index| && index[i].used
    ensures 0 <= index[i].target < |rects|
  {
  }
}
