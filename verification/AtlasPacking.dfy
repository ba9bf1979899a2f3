/** How the font atlas finds room: what is tried in which order, for any rectangle packer that
    keeps its promise. */
module AtlasPacking {
  import opened Options
  import opened Textures
  import opened AtlasRects

  predicate Disjoint(a: Rect, b: Rect) {
    a.x + a.w <= b.x || b.x + b.w <= a.x || a.y + a.h <= b.y || b.y + b.h <= a.y
  }

  predicate Inside(r: Rect, width: nat, height: nat) {
    r.x + r.w <= width && r.y + r.h <= height
  }

  ghost predicate Packing(boxes: seq<Rect>, width: nat, height: nat) {
    && (forall i :: 0 <= i < |boxes| ==> Inside(boxes[i], width, height))
    && forall i, j :: 0 <= i < j < |boxes| ==> Disjoint(boxes[i], boxes[j])
  }

  /** Where a packer puts a box of the given size, into a target of the given size that holds the
      given boxes, if it finds room. */
  type Answer = (nat, nat, seq<Rect>, nat, nat) -> Option<(nat, nat)>

  predicate Clear(boxes: seq<Rect>, box: Rect) {
    forall i :: 0 <= i < |boxes| ==> Disjoint(boxes[i], box)
  }

  /** The packer's promise: a box it places lies within the target and touches no other. An answer
      that breaks the promise counts as none. */
  function Place(answer: Answer, width: nat, height: nat, boxes: seq<Rect>, w: nat, h: nat): (p: Option<(nat, nat)>)
    ensures p.Some? ==>
        Inside(Rect(p.value.0, p.value.1, w, h), width, height) && Clear(boxes, Rect(p.value.0, p.value.1, w, h))
  {
    var p := answer(width, height, boxes, w, h);
    if p.Some? && Inside(Rect(p.value.0, p.value.1, w, h), width, height)
        && Clear(boxes, Rect(p.value.0, p.value.1, w, h)) then p
    else None
  }

  class Packer {
    const answer: Answer
    var width: nat
    var height: nat
    var boxes: seq<Rect>

    constructor (answer: Answer)
      ensures this.answer == answer && width == 0 && height == 0 && boxes == []
    {
      this.answer := answer;
      width, height, boxes := 0, 0, [];
    }

    method InitTarget(width: nat, height: nat)
      modifies this
      ensures this.width == width && this.height == height && boxes == []
    {
      this.width, this.height, boxes := width, height, [];
    }

    method Pack(w: nat, h: nat) returns (packed: bool, x: nat, y: nat)
      requires Packing(boxes, width, height)
      modifies this`boxes
      ensures Packing(boxes, width, height)
      ensures Place(answer, width, height, old(boxes), w, h) == if packed then Some((x, y)) else None
      ensures boxes == if packed then old(boxes) + [Rect(x, y, w, h)] else old(boxes)
    {
      var p := Place(answer, width, height, boxes, w, h);
      packed, x, y := p.Some?, 0, 0;
      if packed {
        x, y := p.value.0, p.value.1;
        boxes := boxes + [Rect(x, y, w, h)];
      }
    }
  }

  // ----------------------------------------------------------------- attempts

  /** The smallest power of two that is at least `n`; 0 for 0. */
  function UpperPowerOfTwo(n: nat): (p: nat)
    ensures p >= n && (n > 0 ==> p < 2 * n)
  {
    if n <= 1 then n else 2 * UpperPowerOfTwo((n + 1) / 2)
  }

  lemma UpperWithin(n: nat)
    requires n <= 0x1_0000
    ensures UpperPowerOfTwo(n) <= 0x1_0000
  {
    assert PowerOfTwo(0x1_0000);
    UpperBound(n, 0x1_0000);
  }

  predicate PowerOfTwo(n: nat) { n == 1 || (n > 1 && n % 2 == 0 && PowerOfTwo(n / 2)) }

  lemma {:induction false} UpperIsPower(n: nat)
    requires n > 0
    ensures PowerOfTwo(UpperPowerOfTwo(n))
  {
    if n > 1 {
      UpperIsPower((n + 1) / 2);
      PowerDoubled(UpperPowerOfTwo((n + 1) / 2));
    }
  }

  lemma PowerDoubled(p: nat)
    requires PowerOfTwo(p)
    ensures PowerOfTwo(2 * p)
  {
    assert 2 * p / 2 == p;
  }

  lemma {:induction false} UpperBound(n: nat, top: nat)
    requires PowerOfTwo(top) && n <= top
    ensures UpperPowerOfTwo(n) <= top
    decreases top
  {
    if n > 1 {
      UpperBound((n + 1) / 2, top / 2);
    }
  }

  /** What is fixed for an atlas. Textures have at most 65536 pixels a side. */
  datatype Setup = Setup(padding: nat, minWidth: nat, minHeight: nat, maxWidth: nat, maxHeight: nat, answer: Answer)

  predicate Limits(s: Setup) {
    0 < s.minWidth <= s.maxWidth <= 0x1_0000 && 0 < s.minHeight <= s.maxHeight <= 0x1_0000
  }

  type Size = (nat, nat)

  /** The rectangle of an entry in use. */
  function PlaceOf(e: Entry, rects: seq<Rect>): Option<Rect> {
    if e.used && 0 <= e.target < |rects| then Some(rects[e.target]) else None
  }

  /** The rectangles in use, slot by slot. */
  function PlacesOf(index: seq<Entry>, rects: seq<Rect>): (places: seq<Option<Rect>>)
    ensures |places| == |index|
  {
    seq(|index|, i requires 0 <= i < |index| => PlaceOf(index[i], rects))
  }

  /** The sizes of the rectangles in use, in the order of their slots. */
  function Sizes(places: seq<Option<Rect>>): seq<Size> {
    if places == [] then []
    else (if places[0].Some? then [(places[0].value.w, places[0].value.h)] else []) + Sizes(places[1..])
  }

  lemma SizesAt(places: seq<Option<Rect>>, k: nat)
    requires k < |places|
    ensures Sizes(places[k..]) ==
            if places[k].Some? then [(places[k].value.w, places[k].value.h)] + Sizes(places[k + 1..])
                else Sizes(places[k + 1..])
  {
    assert places[k..][1..] == places[k + 1..];
  }

  lemma {:induction false} SameSizes(a: seq<Option<Rect>>, b: seq<Option<Rect>>)
    requires |a| == |b|
    requires forall i :: 0 <= i < |a| ==>
               a[i].Some? == b[i].Some? && (a[i].Some? ==> a[i].value.w == b[i].value.w && a[i].value.h == b[i].value.h)
    ensures Sizes(a) == Sizes(b)
  {
    if a != [] {
      SameSizes(a[1..], b[1..]);
    }
  }

  function AreaOf(sizes: seq<Size>, pad: nat): nat {
    if sizes == [] then 0 else (sizes[0].0 + pad) * (sizes[0].1 + pad) + AreaOf(sizes[1..], pad)
  }

  /** Packing as far as it went: the boxes placed, and the largest sides asked for. */
  datatype Attempt = Attempt(ok: bool, boxes: seq<Rect>, maxWidth: nat, maxHeight: nat)

  /** Packs one size more. */
  function PackOne(s: Setup, width: nat, height: nat, a: Attempt, w: nat, h: nat): Attempt {
    var b := a.(maxWidth := Max(a.maxWidth, w), maxHeight := Max(a.maxHeight, h));
    match Place(s.answer, width, height, a.boxes, w + s.padding, h + s.padding)
    case None => b.(ok := false)
    case Some((x, y)) => b.(boxes := a.boxes + [Rect(x, y, w + s.padding, h + s.padding)])
  }

  /** Packs sizes one after another, until one is refused. */
  function PackAll(s: Setup, width: nat, height: nat, a: Attempt, sizes: seq<Size>): Attempt
    decreases |sizes|
  {
    if sizes == [] || !a.ok then a
    else PackAll(s, width, height, PackOne(s, width, height, a, sizes[0].0, sizes[0].1), sizes[1..])
  }

  /** Packing everything into an empty target. */
  function Attempted(s: Setup, sizes: seq<Size>, width: nat, height: nat): Attempt {
    PackAll(s, width, height, Attempt(true, [], 0, 0), sizes)
  }

  // ------------------------------------------------------------------- growth

  function Clamp(n: nat, lo: nat, hi: nat): nat { Max(lo, Min(n, hi)) }

  /** The size to go on with: height before width, large enough for the largest rectangle, and
      within the limits. */
  function NextSize(s: Setup, w: nat, h: nat, maxRectWidth: nat, maxRectHeight: nat): (n: Size) {
    var w' := if h <= w then w else w * 2;
    var h' := if h <= w then h * 2 else h;
    (Clamp(Max(w', UpperPowerOfTwo(maxRectWidth + s.padding)), s.minWidth, s.maxWidth),
     Clamp(Max(h', UpperPowerOfTwo(maxRectHeight + s.padding)), s.minHeight, s.maxHeight))
  }

  /** How far a texture of this size is from the largest one. */
  function Room(s: Setup, w: nat, h: nat): nat {
    if w <= s.maxWidth && h <= s.maxHeight then s.maxWidth + s.maxHeight - w - h else s.maxWidth + s.maxHeight + 1
  }

  lemma NextCloser(s: Setup, w: nat, h: nat, mw: nat, mh: nat)
    requires Limits(s) && w > 0 && h > 0
    ensures var (w', h') := NextSize(s, w, h, mw, mh);
            && s.minWidth <= w' <= s.maxWidth && s.minHeight <= h' <= s.maxHeight
            && ((w', h') == (w, h) || Room(s, w', h') < Room(s, w, h))
  {
    hide UpperPowerOfTwo;
  }

  /** Growing ends exactly where the side whose turn it is has reached its limit, and the other is
      at its limit too or large enough for the largest rectangle. So it may well end before the
      largest size was tried. */
  lemma GrowthEnds(s: Setup, w: nat, h: nat, mw: nat, mh: nat)
    requires Limits(s) && s.minWidth <= w <= s.maxWidth && s.minHeight <= h <= s.maxHeight
    ensures NextSize(s, w, h, mw, mh) == (w, h) <==>
            if h <= w then h == s.maxHeight && (w == s.maxWidth || UpperPowerOfTwo(mw + s.padding) <= w)
            else w == s.maxWidth && (h == s.maxHeight || UpperPowerOfTwo(mh + s.padding) <= h)
  {
    hide UpperPowerOfTwo;
  }

  /** A square whose height is at its limit does not grow, though it could get wider. */
  lemma WidthNotTried(answer: Answer)
    ensures NextSize(Setup(0, 1, 1, 2, 1, answer), 1, 1, 1, 1) == (1, 1)
  {
  }

  /** The size at which repacking from (w, h) on ends: the first in the chain of sizes that growing
      goes through into which everything can be packed, or else the last. */
  function Tried(s: Setup, sizes: seq<Size>, w: nat, h: nat): Size
    requires Limits(s) && w > 0 && h > 0
    decreases Room(s, w, h)
  {
    var a := Attempted(s, sizes, w, h);
    var (w', h') := NextSize(s, w, h, a.maxWidth, a.maxHeight);
    NextCloser(s, w, h, a.maxWidth, a.maxHeight);
    if a.ok || (w', h') == (w, h) then (w, h) else Tried(s, sizes, w', h')
  }

  lemma TriedNow(s: Setup, sizes: seq<Size>, w: nat, h: nat)
    requires Limits(s) && w > 0 && h > 0
    ensures var a := Attempted(s, sizes, w, h);
            var n := NextSize(s, w, h, a.maxWidth, a.maxHeight);
            && n.0 > 0 && n.1 > 0
            && Tried(s, sizes, w, h) == if a.ok || n == (w, h) then (w, h) else Tried(s, sizes, n.0, n.1)
  {
    var a := Attempted(s, sizes, w, h);
    NextCloser(s, w, h, a.maxWidth, a.maxHeight);
  }

  /** The sizes that growing goes through from (w, h) on while packing fails. */
  function Growth(s: Setup, sizes: seq<Size>, w: nat, h: nat): seq<Size>
    requires Limits(s) && w > 0 && h > 0
    decreases Room(s, w, h)
  {
    var a := Attempted(s, sizes, w, h);
    var (w', h') := NextSize(s, w, h, a.maxWidth, a.maxHeight);
    NextCloser(s, w, h, a.maxWidth, a.maxHeight);
    [(w, h)] + if (w', h') == (w, h) then [] else Growth(s, sizes, w', h')
  }

  predicate Refuses(s: Setup, sizes: seq<Size>, n: Size) { !Attempted(s, sizes, n.0, n.1).ok }

  ghost predicate AllRefuse(s: Setup, sizes: seq<Size>, chain: seq<Size>) {
    forall k :: 0 <= k < |chain| ==> Refuses(s, sizes, chain[k])
  }

  /** `n` is the first size of the chain that does not refuse, or the last one if all do. */
  ghost predicate EndsAt(s: Setup, sizes: seq<Size>, chain: seq<Size>, n: Size) {
    exists k :: 0 <= k < |chain| && chain[k] == n && AllRefuse(s, sizes, chain[..k])
                && (Refuses(s, sizes, n) ==> k == |chain| - 1)
  }

  /** Repacking ends at the first size of the chain that takes everything, and with everything
      refused exactly if every size of the chain refuses. */
  lemma {:induction false} TriedInChain(s: Setup, sizes: seq<Size>, w: nat, h: nat)
    requires Limits(s) && w > 0 && h > 0
    ensures EndsAt(s, sizes, Growth(s, sizes, w, h), Tried(s, sizes, w, h))
    ensures Refuses(s, sizes, Tried(s, sizes, w, h)) <==> AllRefuse(s, sizes, Growth(s, sizes, w, h))
    decreases Room(s, w, h)
  {
    hide NextSize, Attempted;
    var a := Attempted(s, sizes, w, h);
    var (w', h') := NextSize(s, w, h, a.maxWidth, a.maxHeight);
    NextCloser(s, w, h, a.maxWidth, a.maxHeight);
    var chain := Growth(s, sizes, w, h);
    assert chain[0] == (w, h) && AllRefuse(s, sizes, chain[..0]);
    if !a.ok && (w', h') != (w, h) {
      TriedInChain(s, sizes, w', h');
      ChainMore(s, sizes, (w, h), Growth(s, sizes, w', h'), Tried(s, sizes, w', h'));
    }
  }

  lemma ChainMore(s: Setup, sizes: seq<Size>, first: Size, rest: seq<Size>, n: Size)
    requires Refuses(s, sizes, first) && EndsAt(s, sizes, rest, n)
    ensures AllRefuse(s, sizes, [first] + rest) <==> AllRefuse(s, sizes, rest)
    ensures EndsAt(s, sizes, [first] + rest, n)
  {
    hide Refuses;
    var chain := [first] + rest;
    assert forall k :: 0 <= k < |rest| ==> chain[k + 1] == rest[k];
    assert forall k :: 0 < k < |chain| ==> chain[k] == rest[k - 1];
    var k :| 0 <= k < |rest| && rest[k] == n && AllRefuse(s, sizes, rest[..k])
        && (Refuses(s, sizes, n) ==> k == |rest| - 1);
    var front := chain[..k + 1];
    forall j | 0 <= j < |front| ensures Refuses(s, sizes, front[j]) {
      assert j > 0 ==> front[j] == rest[..k][j - 1];
    }
    assert chain[k + 1] == n && AllRefuse(s, sizes, front);
  }

  /** Repacking ends within the limits, unless at the size that was asked for. */
  lemma {:induction false} TriedWithin(s: Setup, sizes: seq<Size>, w: nat, h: nat)
    requires Limits(s) && w > 0 && h > 0
    ensures var (w', h') := Tried(s, sizes, w, h);
            && w' > 0 && h' > 0
            && ((w', h') == (w, h) || (s.minWidth <= w' <= s.maxWidth && s.minHeight <= h' <= s.maxHeight))
    decreases Room(s, w, h)
  {
    hide NextSize, Attempted;
    var a := Attempted(s, sizes, w, h);
    var (w', h') := NextSize(s, w, h, a.maxWidth, a.maxHeight);
    NextCloser(s, w, h, a.maxWidth, a.maxHeight);
    if !a.ok && (w', h') != (w, h) {
      TriedWithin(s, sizes, w', h');
    }
  }

  // ----------------------------------------------------------------- doubling

  lemma {:induction false} PowerGap(a: nat, b: nat)
    requires PowerOfTwo(a) && PowerOfTwo(b) && a < b
    ensures 2 * a <= b
  {
    if a > 1 {
      PowerGap(a / 2, b / 2);
    }
  }

  /** The limits are powers of two, as the source asserts. */
  predicate PowerLimits(s: Setup) {
    && Limits(s) && PowerOfTwo(s.minWidth) && PowerOfTwo(s.minHeight)
    && PowerOfTwo(s.maxWidth) && PowerOfTwo(s.maxHeight)
  }

  /** A size within the limits that can be reached, with room for a rectangle of this size. */
  predicate Roomy(s: Setup, n: Size, w: nat, h: nat) {
    && s.minWidth <= n.0 <= s.maxWidth && s.minHeight <= n.1 <= s.maxHeight && PowerOfTwo(n.0) && PowerOfTwo(n.1)
    && w + s.padding <= n.0 && h + s.padding <= n.1
  }

  /** As long as the largest rectangle fits, growing doubles the height of a texture that is at least
      as wide as high, and the width of any other, unless that side is at its limit. */
  lemma NextDoubles(s: Setup, w: nat, h: nat, mw: nat, mh: nat)
    requires PowerLimits(s) && Roomy(s, (w, h), mw, mh)
    ensures NextSize(s, w, h, mw, mh) ==
            if h <= w then (w, if h < s.maxHeight then 2 * h else h) else (if w < s.maxWidth then 2 * w else w, h)
  {
    hide UpperPowerOfTwo, PowerOfTwo;
    UpperBound(mw + s.padding, w);
    UpperBound(mh + s.padding, h);
    if h < s.maxHeight {
      PowerGap(h, s.maxHeight);
    }
    if w < s.maxWidth {
      PowerGap(w, s.maxWidth);
    }
    SideNext(w, UpperPowerOfTwo(mw + s.padding), s.minWidth, s.maxWidth);
    SideNext(h, UpperPowerOfTwo(mh + s.padding), s.minHeight, s.maxHeight);
    hide Clamp, Max;
  }

  lemma SideNext(side: nat, need: nat, lo: nat, hi: nat)
    requires lo <= side <= hi && need <= side && (side < hi ==> 2 * side <= hi)
    ensures Clamp(Max(side, need), lo, hi) == side
    ensures Clamp(Max(side * 2, need), lo, hi) == if side < hi then 2 * side else side
  {
  }

  /** A size of twice the area: the shorter side is doubled, the height if they are equal. */
  predicate Doubled(n: Size, m: Size) {
    if n.1 <= n.0 then m == (n.0, 2 * n.1) else m == (2 * n.0, n.1)
  }

  predicate AllRoomy(s: Setup, n: Size, sizes: seq<Size>) {
    Roomy(s, n, 0, 0) && forall k :: 0 <= k < |sizes| ==> Roomy(s, n, sizes[k].0, sizes[k].1)
  }

  /** However far packing goes, it asks for no larger sides than those of the sizes. */
  lemma {:induction false} LargestAsked(s: Setup, width: nat, height: nat, a: Attempt, sizes: seq<Size>, n: Size)
    requires AllRoomy(s, n, sizes) && a.maxWidth + s.padding <= n.0 && a.maxHeight + s.padding <= n.1
    ensures var r := PackAll(s, width, height, a, sizes);
            r.maxWidth + s.padding <= n.0 && r.maxHeight + s.padding <= n.1
    decreases |sizes|
  {
    if sizes != [] && a.ok {
      var b := PackOne(s, width, height, a, sizes[0].0, sizes[0].1);
      assert b.maxWidth + s.padding <= n.0 && b.maxHeight + s.padding <= n.1 by {
        hide Place, PowerOfTwo;
        assert Roomy(s, n, sizes[0].0, sizes[0].1);
      }
      LargestAsked(s, width, height, b, sizes[1..], n);
    }
  }

  /** And once everything is packed these are the largest sides of all. */
  lemma {:induction false} LargestKnown(s: Setup, width: nat, height: nat, a: Attempt, sizes: seq<Size>)
    requires PackAll(s, width, height, a, sizes).ok
    ensures var r := PackAll(s, width, height, a, sizes);
            && r.maxWidth >= a.maxWidth && r.maxHeight >= a.maxHeight
            && (forall k :: 0 <= k < |sizes| ==> sizes[k].0 <= r.maxWidth && sizes[k].1 <= r.maxHeight)
            && (r.maxWidth == a.maxWidth || exists k :: 0 <= k < |sizes| && sizes[k].0 == r.maxWidth)
            && (r.maxHeight == a.maxHeight || exists k :: 0 <= k < |sizes| && sizes[k].1 == r.maxHeight)
    decreases |sizes|
  {
    if sizes != [] {
      PackAllOk(s, width, height, a, sizes);
      var b, r := PackOne(s, width, height, a, sizes[0].0, sizes[0].1), PackAll(s, width, height, a, sizes);
      LargestKnown(s, width, height, b, sizes[1..]);
      hide PackAll, Place;
      assert forall k :: 1 <= k < |sizes| ==> sizes[k] == sizes[1..][k - 1];
      if r.maxWidth != a.maxWidth && r.maxWidth != sizes[0].0 {
        var k :| 0 <= k < |sizes[1..]| && sizes[1..][k].0 == r.maxWidth;
        assert sizes[k + 1].0 == r.maxWidth;
      }
      if r.maxHeight != a.maxHeight && r.maxHeight != sizes[0].1 {
        var k :| 0 <= k < |sizes[1..]| && sizes[1..][k].1 == r.maxHeight;
        assert sizes[k + 1].1 == r.maxHeight;
      }
    }
  }

  lemma PackAllOk(s: Setup, width: nat, height: nat, a: Attempt, sizes: seq<Size>)
    requires PackAll(s, width, height, a, sizes).ok && sizes != []
    ensures a.ok && PackAll(s, width, height, a, sizes) ==
        PackAll(s, width, height, PackOne(s, width, height, a, sizes[0].0, sizes[0].1), sizes[1..])
  {
  }

  /** So the next size of a chain is the same, or has one side doubled and room for everything too. */
  lemma NextInChain(s: Setup, sizes: seq<Size>, w: nat, h: nat)
    requires PowerLimits(s) && AllRoomy(s, (w, h), sizes)
    ensures w > 0 && h > 0
    ensures var a := Attempted(s, sizes, w, h);
            var n := NextSize(s, w, h, a.maxWidth, a.maxHeight);
            n == (w, h) || (Doubled((w, h), n) && AllRoomy(s, n, sizes))
  {
    hide NextSize, PackAll;
    LargestAsked(s, w, h, Attempt(true, [], 0, 0), sizes, (w, h));
    var a := Attempted(s, sizes, w, h);
    NextDoubles(s, w, h, a.maxWidth, a.maxHeight);
    NextCloser(s, w, h, a.maxWidth, a.maxHeight);
    PowerDoubled(w);
    PowerDoubled(h);
    hide PowerOfTwo;
    var n := NextSize(s, w, h, a.maxWidth, a.maxHeight);
    forall k | 0 <= k < |sizes| ensures n != (w, h) ==> Roomy(s, n, sizes[k].0, sizes[k].1) {
      assert Roomy(s, (w, h), sizes[k].0, sizes[k].1);
    }
  }

  /** Every size but the first is the one before with a side doubled, and has twice its area. */
  ghost predicate Doublings(chain: seq<Size>) {
    forall k :: 0 < k < |chain| ==>
      Doubled(chain[k - 1], chain[k]) && chain[k].0 * chain[k].1 == 2 * (chain[k - 1].0 * chain[k - 1].1)
  }

  lemma DoublingsMore(n: Size, rest: seq<Size>)
    requires Doublings(rest) && rest != [] && Doubled(n, rest[0])
    ensures Doublings([n] + rest)
  {
    var chain := [n] + rest;
    DoubledArea(n, rest[0]);
    hide Doubled;
    forall k | 0 < k < |chain|
      ensures Doubled(chain[k - 1], chain[k]) && chain[k].0 * chain[k].1 == 2 * (chain[k - 1].0 * chain[k - 1].1)
    {
      assert chain[k] == rest[k - 1] && (k > 1 ==> chain[k - 1] == rest[k - 2]);
    }
  }

  /** Every size of the chain has twice the area of the one before. */
  lemma {:induction false} GrowthDoubles(s: Setup, sizes: seq<Size>, w: nat, h: nat)
    requires PowerLimits(s) && AllRoomy(s, (w, h), sizes) && w > 0 && h > 0
    ensures var chain := Growth(s, sizes, w, h);
            chain != [] && chain[0] == (w, h) && Doublings(chain)
    decreases Room(s, w, h)
  {
    hide NextSize, Attempted, PowerOfTwo, AllRoomy, Doubled, Doublings;
    var a := Attempted(s, sizes, w, h);
    var (w', h') := NextSize(s, w, h, a.maxWidth, a.maxHeight);
    NextCloser(s, w, h, a.maxWidth, a.maxHeight);
    NextInChain(s, sizes, w, h);
    if (w', h') == (w, h) {
      SingleChain((w, h));
      assert Growth(s, sizes, w, h) == [(w, h)];
    } else {
      GrowthDoubles(s, sizes, w', h');
      DoublingsMore((w, h), Growth(s, sizes, w', h'));
    }
  }

  lemma SingleChain(n: Size)
    ensures Doublings([n])
  {
  }

  lemma DoubledArea(n: Size, m: Size)
    requires Doubled(n, m)
    ensures m.0 * m.1 == 2 * (n.0 * n.1)
  {
    assert n.0 * (2 * n.1) == 2 * (n.0 * n.1) && (2 * n.0) * n.1 == 2 * (n.0 * n.1);
  }

  /** So a repack ends at the size asked for, or at one with at most twice the area of one that
      refused. */
  lemma {:induction false} TriedDoubles(s: Setup, sizes: seq<Size>, w: nat, h: nat)
    requires PowerLimits(s) && AllRoomy(s, (w, h), sizes) && w > 0 && h > 0
    ensures var t := Tried(s, sizes, w, h);
            t == (w, h) || exists n :: Refuses(s, sizes, n) && Doubled(n, t) && t.0 * t.1 == 2 * (n.0 * n.1)
    decreases Room(s, w, h)
  {
    hide NextSize, Attempted, PowerOfTwo, AllRoomy, Doubled;
    var a := Attempted(s, sizes, w, h);
    var (w', h') := NextSize(s, w, h, a.maxWidth, a.maxHeight);
    NextCloser(s, w, h, a.maxWidth, a.maxHeight);
    NextInChain(s, sizes, w, h);
    if !a.ok && (w', h') != (w, h) {
      assert Refuses(s, sizes, (w, h));
      DoubledArea((w, h), (w', h'));
      TriedDoubles(s, sizes, w', h');
    }
  }

  /** When the largest rectangle does not fit, growing leaps to the smallest power of two with room for
      it, or doubles the side if that is more. */
  lemma NextLeaps(s: Setup, w: nat, h: nat, mw: nat, mh: nat)
    requires PowerLimits(s) && Roomy(s, (w, h), 0, 0)
    ensures var n := NextSize(s, w, h, mw, mh);
            && (w < mw + s.padding <= s.maxWidth ==> Leaps(w, mw + s.padding, n.0))
            && (h < mh + s.padding <= s.maxHeight ==> Leaps(h, mh + s.padding, n.1))
  {
    if w < mw + s.padding <= s.maxWidth {
      LeapTo(w, mw + s.padding, s.maxWidth);
    }
    if h < mh + s.padding <= s.maxHeight {
      LeapTo(h, mh + s.padding, s.maxHeight);
    }
    hide UpperPowerOfTwo, PowerOfTwo;
  }

  predicate Leaps(side: nat, need: nat, next: nat) {
    PowerOfTwo(next) && need <= next && (next < 2 * need || next == 2 * side)
  }

  lemma LeapTo(side: nat, need: nat, most: nat)
    requires PowerOfTwo(side) && PowerOfTwo(most) && side < need <= most
    ensures PowerOfTwo(2 * side) && 2 * side <= most
    ensures PowerOfTwo(UpperPowerOfTwo(need)) && UpperPowerOfTwo(need) <= most
  {
    UpperIsPower(need);
    UpperBound(need, most);
    PowerDoubled(side);
    PowerGap(side, most);
  }

  // --------------------------------------------------------------------- area

  ghost function CellsOf(r: Rect): set<(nat, nat)> {
    set x: nat, y: nat | r.x <= x < r.x + r.w && r.y <= y < r.y + r.h :: (x, y)
  }

  lemma {:induction false} ColumnCount(x: nat, y: nat, h: nat)
    ensures |CellsOf(Rect(x, y, 1, h))| == h
  {
    if h == 0 {
      assert CellsOf(Rect(x, y, 1, h)) == {};
    } else {
      ColumnCount(x, y, h - 1);
      ColumnMore(x, y, h - 1);
      hide CellsOf;
    }
  }

  lemma ColumnMore(x: nat, y: nat, h: nat)
    ensures (x, y + h) !in CellsOf(Rect(x, y, 1, h))
    ensures CellsOf(Rect(x, y, 1, h + 1)) == CellsOf(Rect(x, y, 1, h)) + {(x, y + h)}
  {
    var more, cells := CellsOf(Rect(x, y, 1, h + 1)), CellsOf(Rect(x, y, 1, h));
    forall c: (nat, nat) ensures c in more <==> c in cells + {(x, y + h)} {
    }
  }

  lemma {:induction false} CellCount(r: Rect)
    ensures |CellsOf(r)| == r.w * r.h
    decreases r.w
  {
    hide CellsOf;
    if r.w == 0 {
      NoCells(r);
    } else {
      var front, column := r.(w := r.w - 1), Rect(r.x + r.w - 1, r.y, 1, r.h);
      CellCount(front);
      ColumnCount(column.x, column.y, column.h);
      LastColumn(r, front, column);
      OneMore(r.w - 1, r.h);
    }
  }

  lemma NoCells(r: Rect)
    requires r.w == 0
    ensures CellsOf(r) == {}
  {
  }

  lemma LastColumn(r: Rect, front: Rect, column: Rect)
    requires r.w > 0 && front == r.(w := r.w - 1) && column == Rect(r.x + r.w - 1, r.y, 1, r.h)
    ensures |CellsOf(r)| == |CellsOf(front)| + |CellsOf(column)|
  {
    assert CellsOf(r) == CellsOf(front) + CellsOf(column) && CellsOf(front) * CellsOf(column) == {};
  }

  lemma OneMore(n: nat, h: nat)
    ensures (n + 1) * h == n * h + h
  {
  }

  ghost function AllCells(boxes: seq<Rect>): set<(nat, nat)> {
    if boxes == [] then {} else AllCells(boxes[..|boxes| - 1]) + CellsOf(boxes[|boxes| - 1])
  }

  function BoxesArea(boxes: seq<Rect>): nat {
    if boxes == [] then 0 else BoxesArea(boxes[..|boxes| - 1]) + boxes[|boxes| - 1].w * boxes[|boxes| - 1].h
  }

  lemma {:induction false} InAllCells(boxes: seq<Rect>, c: (nat, nat))
    ensures c in AllCells(boxes) <==> exists i :: 0 <= i < |boxes| && c in CellsOf(boxes[i])
  {
    if boxes != [] {
      var front := boxes[..|boxes| - 1];
      InAllCells(front, c);
      assert forall i :: 0 <= i < |front| ==> front[i] == boxes[i];
    }
  }

  lemma {:induction false} DisjointArea(boxes: seq<Rect>, width: nat, height: nat)
    requires Packing(boxes, width, height)
    ensures |AllCells(boxes)| == BoxesArea(boxes)
  {
    if boxes != [] {
      var front, last := boxes[..|boxes| - 1], boxes[|boxes| - 1];
      DisjointArea(front, width, height);
      CellCount(last);
      forall c | c in AllCells(front) ensures c !in CellsOf(last) {
        InAllCells(front, c);
        var i :| 0 <= i < |front| && c in CellsOf(front[i]);
        assert Disjoint(boxes[i], last);
      }
      assert AllCells(front) * CellsOf(last) == {};
    }
  }

  /** Boxes that lie in a target without touching each other have no larger area than the target. */
  lemma PackingArea(boxes: seq<Rect>, width: nat, height: nat)
    requires Packing(boxes, width, height)
    ensures BoxesArea(boxes) <= width * height
  {
    DisjointArea(boxes, width, height);
    CellCount(Rect(0, 0, width, height));
    var all, target := AllCells(boxes), CellsOf(Rect(0, 0, width, height));
    forall c | c in all ensures c in target {
      InAllCells(boxes, c);
    }
    assert target == all + (target - all);
  }

  lemma PackingMore(boxes: seq<Rect>, box: Rect, width: nat, height: nat)
    requires Packing(boxes, width, height) && Inside(box, width, height) && Clear(boxes, box)
    ensures Packing(boxes + [box], width, height) && BoxesArea(boxes + [box]) == BoxesArea(boxes) + box.w * box.h
  {
    assert (boxes + [box])[..|boxes|] == boxes;
  }

  lemma PackOneBoxes(s: Setup, width: nat, height: nat, a: Attempt, w: nat, h: nat)
    requires Packing(a.boxes, width, height)
    ensures var r := PackOne(s, width, height, a, w, h);
            && Packing(r.boxes, width, height)
            && (a.ok && r.ok ==> BoxesArea(r.boxes) == BoxesArea(a.boxes) + (w + s.padding) * (h + s.padding))
  {
    hide Packing, Place, BoxesArea;
    var p := Place(s.answer, width, height, a.boxes, w + s.padding, h + s.padding);
    if p.Some? {
      PackingMore(a.boxes, Rect(p.value.0, p.value.1, w + s.padding, h + s.padding), width, height);
    }
  }

  /** What packing everything has placed. */
  lemma {:induction false} PackAllBoxes(s: Setup, width: nat, height: nat, a: Attempt, sizes: seq<Size>)
    requires Packing(a.boxes, width, height)
    ensures var r := PackAll(s, width, height, a, sizes);
            && Packing(r.boxes, width, height) && (r.ok ==> a.ok)
            && (r.ok ==> BoxesArea(r.boxes) == BoxesArea(a.boxes) + AreaOf(sizes, s.padding))
    decreases |sizes|
  {
    hide Packing, PackOne, BoxesArea;
    if sizes != [] && a.ok {
      PackOneBoxes(s, width, height, a, sizes[0].0, sizes[0].1);
      PackAllBoxes(s, width, height, PackOne(s, width, height, a, sizes[0].0, sizes[0].1), sizes[1..]);
    }
  }

  lemma ProductGrows(a: nat, b: nat, c: nat, d: nat)
    requires a <= c && b <= d
    ensures a * b <= c * d
  {
  }

  // ------------------------------------------------------------------ decisions

  /** All that decides where rectangles go and when the texture changes: the texture's size, the
      packer's target and boxes, the rectangles in use slot by slot, and the slots of glyphs that
      have not been used lately. */
  datatype Store = Store(
    width: nat, height: nat, target: Size, boxes: seq<Rect>, places: seq<Option<Rect>>, stale: set<nat>,
    maxRectWidth: nat, maxRectHeight: nat, locked: bool)

  /** `xs` without the items in the given slots. */
  ghost function Spared<T>(xs: seq<Option<T>>, slots: set<nat>): (r: seq<Option<T>>)
    ensures |r| == |xs|
  {
    seq(|xs|, i requires 0 <= i < |xs| => if i in slots then None else xs[i])
  }

  /** The rectangles of stale glyphs are given up. */
  ghost function Pruned(st: Store): Store { st.(places := Spared(st.places, st.stale), stale := {}) }

  /** The rectangles in use, each moved to the spot of its box. The last boxes belong to the last
      rectangles. */
  function Dealt(places: seq<Option<Rect>>, boxes: seq<Rect>): (r: seq<Option<Rect>>)
    ensures |r| == |places|
    ensures forall i :: 0 <= i < |r| ==>
              r[i].Some? == places[i].Some?
                  && (r[i].Some? ==> r[i].value.w == places[i].value.w && r[i].value.h == places[i].value.h)
    decreases |places|
  {
    if places == [] then []
    else
      var front, last := places[..|places| - 1], places[|places| - 1];
      if last.None? || boxes == [] then Dealt(front, boxes) + [last]
      else
        var box := boxes[|boxes| - 1];
        Dealt(front, boxes[..|boxes| - 1]) + [Some(Rect(box.x, box.y, last.value.w, last.value.h))]
  }

  lemma DealtNone(places: seq<Option<Rect>>, boxes: seq<Rect>, k: nat)
    requires k < |places| && places[k] == None
    ensures Dealt(places[..k + 1], boxes) == Dealt(places[..k], boxes) + [None]
  {
    assert places[..k + 1][..k] == places[..k];
  }

  lemma DealtMore(places: seq<Option<Rect>>, boxes: seq<Rect>, k: nat, box: Rect)
    requires k < |places| && places[k].Some?
    ensures Dealt(places[..k + 1], boxes + [box]) ==
            Dealt(places[..k], boxes) + [Some(Rect(box.x, box.y, places[k].value.w, places[k].value.h))]
  {
    assert places[..k + 1][..k] == places[..k] && (boxes + [box])[..|boxes|] == boxes;
  }

  /** Everything packed anew into a target of the given size. If it takes everything, that is the
      new texture. Otherwise the texture stays, with all its rectangles, and so does what the packer
      has made of the target. */
  function Moved(s: Setup, st: Store, n: Size): (r: Store)
    ensures r.locked <==> Refuses(s, Sizes(st.places), n)
    ensures r.target == n && r.stale == st.stale && Sizes(r.places) == Sizes(st.places)
  {
    var a := Attempted(s, Sizes(st.places), n.0, n.1);
    SameSizes(Dealt(st.places, a.boxes), st.places);
    var r := st.(target := n, boxes := a.boxes, maxRectWidth := a.maxWidth, maxRectHeight := a.maxHeight,
        locked := !a.ok);
    if a.ok then r.(width := n.0, height := n.1, places := Dealt(st.places, a.boxes)) else r
  }

  /** A target that refused leaves nothing behind once another one is tried. */
  lemma MovedOn(s: Setup, st: Store, n: Size, m: Size)
    requires Moved(s, st, n).locked
    ensures Moved(s, Moved(s, st, n), m) == Moved(s, st, m)
  {
  }

  lemma MovedLocked(s: Setup, st: Store, n: Size, locked: bool)
    ensures Moved(s, st.(locked := locked), n) == Moved(s, st, n)
  {
  }

  function Repacked(s: Setup, st: Store, w: nat, h: nat): Store
    requires Limits(s) && w > 0 && h > 0
  {
    Moved(s, st, Tried(s, Sizes(st.places), w, h))
  }

  /** Repacked from the size after (w, h) on; nothing when growing has come to its end. */
  function GrownFrom(s: Setup, st: Store, w: nat, h: nat): Store
    requires Limits(s) && w > 0 && h > 0
  {
    var n := NextSize(s, w, h, st.maxRectWidth, st.maxRectHeight);
    NextCloser(s, w, h, st.maxRectWidth, st.maxRectHeight);
    if n == (w, h) then st else Repacked(s, st, n.0, n.1)
  }

  /** A repack is an attempt at the size asked for, and growth when that fails. */
  lemma RepackedNow(s: Setup, st: Store, w: nat, h: nat)
    requires Limits(s) && w > 0 && h > 0
    ensures var m := Moved(s, st, (w, h)); Repacked(s, st, w, h) == if m.locked then GrownFrom(s, m, w, h) else m
  {
    hide NextSize, Attempted, Dealt;
    TriedNow(s, Sizes(st.places), w, h);
    var m := Moved(s, st, (w, h));
    var n := NextSize(s, w, h, m.maxRectWidth, m.maxRectHeight);
    if m.locked && n != (w, h) {
      MovedOn(s, st, (w, h), Tried(s, Sizes(st.places), n.0, n.1));
    }
  }

  /** Growing from a size that has room for the largest rectangle: nothing happens when the side whose
      turn it is has reached its limit; otherwise everything is repacked, from twice its length on. */
  lemma GrownDoubles(s: Setup, st: Store, w: nat, h: nat)
    requires PowerLimits(s) && Roomy(s, (w, h), st.maxRectWidth, st.maxRectHeight) && w > 0 && h > 0
    ensures GrownFrom(s, st, w, h) ==
            if h <= w then (if h == s.maxHeight then st else Repacked(s, st, w, 2 * h))
            else if w == s.maxWidth then st else Repacked(s, st, 2 * w, h)
  {
    hide NextSize, Repacked, PowerOfTwo;
    NextDoubles(s, w, h, st.maxRectWidth, st.maxRectHeight);
  }

  lemma RepackedLock(s: Setup, st: Store, w: nat, h: nat)
    requires Limits(s) && w > 0 && h > 0
    ensures Repacked(s, st, w, h).locked <==> Refuses(s, Sizes(st.places), Tried(s, Sizes(st.places), w, h))
  {
  }

  /** Making space: what is stale is given up, and then follows a repack at the same size if that
      and what was given up before was a fifth of what is packed, or else growth. */
  ghost function Spaced(s: Setup, st: Store): (r: Store)
    requires Limits(s) && st.width > 0 && st.height > 0
    ensures r.width > 0 && r.height > 0
  {
    hide NextSize, Attempted, Dealt, AreaOf, Tried;
    var p, all := Pruned(st), BoxesArea(st.boxes);
    TriedWithin(s, Sizes(p.places), st.width, st.height);
    NextCloser(s, st.width, st.height, st.maxRectWidth, st.maxRectHeight);
    var n := NextSize(s, st.width, st.height, st.maxRectWidth, st.maxRectHeight);
    TriedWithin(s, Sizes(p.places), n.0, n.1);
    if (all - AreaOf(Sizes(p.places), s.padding)) * 5 < all then GrownFrom(s, p, st.width, st.height)
    else Repacked(s, p, st.width, st.height)
  }

  /** Where a rectangle would go right now. */
  function PlaceIn(s: Setup, st: Store, w: nat, h: nat): Option<(nat, nat)> {
    Place(s.answer, st.target.0, st.target.1, st.boxes, w + s.padding, h + s.padding)
  }

  datatype Found = Found(spot: Option<(nat, nat)>, store: Store)

  /** Looking for room for a rectangle, with `n` more attempts after making space. A store that is
      locked makes none. */
  ghost function Search(s: Setup, st: Store, w: nat, h: nat, n: nat): (f: Found)
    requires Limits(s) && st.width > 0 && st.height > 0
    ensures f.store.width > 0 && f.store.height > 0
    decreases n
  {
    var p := PlaceIn(s, st, w, h);
    if p.Some? || n == 0 || st.locked then Found(p, st) else Search(s, Spaced(s, st), w, h, n - 1)
  }

  lemma SearchNow(s: Setup, st: Store, w: nat, h: nat, n: nat)
    requires Limits(s) && st.width > 0 && st.height > 0
    ensures var p := PlaceIn(s, st, w, h);
            Search(s, st, w, h, n) ==
            if p.Some? || n == 0 || st.locked then Found(p, st) else Search(s, Spaced(s, st), w, h, n - 1)
  {
    hide Spaced, PlaceIn;
  }

  /** The sides of a rectangle count among those asked for. */
  function Asked(st: Store, w: nat, h: nat): Store {
    st.(maxRectWidth := Max(st.maxRectWidth, w), maxRectHeight := Max(st.maxRectHeight, h))
  }

  /** Looking for room for a new rectangle: four attempts. */
  ghost function Adding(s: Setup, st: Store, w: nat, h: nat): (f: Found)
    requires Limits(s) && st.width > 0 && st.height > 0
    ensures f.store.width > 0 && f.store.height > 0
  {
    Search(s, Asked(st, w, h), w, h, 3)
  }

  /** Space is made up to three times, as long as there is no spot and the store is not locked. */
  lemma FourAttempts(s: Setup, st: Store, w: nat, h: nat)
    requires Limits(s) && st.width > 0 && st.height > 0
    ensures var s0 := st.(maxRectWidth := Max(st.maxRectWidth, w), maxRectHeight := Max(st.maxRectHeight, h));
            var s1 := Spaced(s, s0);
            var s2 := Spaced(s, s1);
            var s3 := Spaced(s, s2);
            Adding(s, st, w, h) ==
            if PlaceIn(s, s0, w, h).Some? || s0.locked then Found(PlaceIn(s, s0, w, h), s0)
            else if PlaceIn(s, s1, w, h).Some? || s1.locked then Found(PlaceIn(s, s1, w, h), s1)
            else if PlaceIn(s, s2, w, h).Some? || s2.locked then Found(PlaceIn(s, s2, w, h), s2)
            else Found(PlaceIn(s, s3, w, h), s3)
  {
    hide Spaced, PlaceIn;
    var s0 := Asked(st, w, h);
    var s1 := Spaced(s, s0);
    var s2 := Spaced(s, s1);
    SearchNow(s, s0, w, h, 3);
    SearchNow(s, s1, w, h, 2);
    SearchNow(s, s2, w, h, 1);
    SearchNow(s, Spaced(s, s2), w, h, 0);
  }

  /** The store once a box was placed at the spot that was found. */
  function Boxed(f: Found, w: nat, h: nat): (r: Store)
    ensures r.locked == f.store.locked && (f.spot == None ==> r == f.store)
  {
    match f.spot
    case None => f.store
    case Some((x, y)) => f.store.(boxes := f.store.boxes + [Rect(x, y, w, h)])
  }

  /** And once its rectangle is in slot `i`. */
  function Packed(f: Found, i: nat, w: nat, h: nat, pad: nat): (r: Store)
    requires f.spot.Some? && i <= |f.store.places|
    ensures r.locked == f.store.locked
  {
    Boxed(f, w + pad, h + pad).(places := Placed(f.store.places, i, Some(Rect(f.spot.value.0, f.spot.value.1, w, h))))
  }

  /** A rectangle lies within the texture and clear of all that are in use. */
  predicate RoomFor(st: Store, r: Rect) {
    && Inside(r, st.width, st.height)
    && forall j :: 0 <= j < |st.places| && st.places[j].Some? ==> Disjoint(st.places[j].value, r)
  }

  /** Slot `i` has rectangle `r`, within the texture and clear of all others. */
  predicate Fits(st: Store, i: nat, r: Rect) {
    && i < |st.places| && st.places[i] == Some(r) && Inside(r, st.width, st.height)
    && forall j :: 0 <= j < |st.places| && j != i && st.places[j].Some? ==> Disjoint(st.places[j].value, r)
  }

  /** A rectangle that was packed fits exactly if there was room for it. */
  lemma FitsExactly(f: Found, i: nat, w: nat, h: nat, pad: nat)
    requires f.spot.Some? && i <= |f.store.places| && (i < |f.store.places| ==> f.store.places[i] == None)
    ensures var r := Rect(f.spot.value.0, f.spot.value.1, w, h);
        Fits(Packed(f, i, w, h, pad), i, r) <==> RoomFor(f.store, r)
  {
    var r := Rect(f.spot.value.0, f.spot.value.1, w, h);
    var places := Packed(f, i, w, h, pad).places;
    assert forall j :: 0 <= j < |f.store.places| && j != i ==> places[j] == f.store.places[j];
    if Fits(Packed(f, i, w, h, pad), i, r) {
      forall j | 0 <= j < |f.store.places| && f.store.places[j].Some? ensures Disjoint(f.store.places[j].value, r) {
        assert places[j] == f.store.places[j];
      }
    }
  }

  // ------------------------------------------------------------- too much area

  /** A texture within the limits over which the packer works, with boxes for all that is in use. */
  ghost predicate Covered(s: Setup, st: Store) {
    && 0 < st.width <= s.maxWidth && 0 < st.height <= s.maxHeight && st.target == (st.width, st.height)
    && Packing(st.boxes, st.width, st.height) && AreaOf(Sizes(Pruned(st).places), s.padding) <= BoxesArea(st.boxes)
  }

  /** What is in use and not stale, and a new rectangle, have more area than the largest size,
      padding included. */
  ghost predicate TooLarge(s: Setup, st: Store, w: nat, h: nat) {
    AreaOf(Sizes(Pruned(st).places), s.padding) + (w + s.padding) * (h + s.padding) > s.maxWidth * s.maxHeight
  }

  /** What packing everything has made is a packing, with an area of its own for every size. */
  lemma AttemptCovers(s: Setup, sizes: seq<Size>, w: nat, h: nat)
    ensures var a := Attempted(s, sizes, w, h);
        Packing(a.boxes, w, h) && (a.ok ==> BoxesArea(a.boxes) == AreaOf(sizes, s.padding))
  {
    PackAllBoxes(s, w, h, Attempt(true, [], 0, 0), sizes);
  }

  lemma PrunedTwice(st: Store)
    ensures Pruned(Pruned(st)) == Pruned(st)
    ensures st.stale == {} ==> Pruned(st) == st
  {
    assert Spared(Spared(st.places, st.stale), {}) == Spared(st.places, st.stale);
    assert st.stale == {} ==> Spared(st.places, st.stale) == st.places;
  }

  lemma MovedCovers(s: Setup, st: Store, n: Size)
    requires 0 < n.0 <= s.maxWidth && 0 < n.1 <= s.maxHeight && st.stale == {}
    ensures !Moved(s, st, n).locked ==> Covered(s, Moved(s, st, n))
  {
    hide AreaOf, BoxesArea, Packing, Dealt, Attempted;
    AttemptCovers(s, Sizes(st.places), n.0, n.1);
    PrunedTwice(Moved(s, st, n));
  }

  /** Making space keeps all that is in use but the stale glyphs, and a texture within its limits. */
  lemma SpacedCovers(s: Setup, st: Store)
    requires Limits(s) && Covered(s, st) && !st.locked
    ensures Sizes(Pruned(Spaced(s, st)).places) == Sizes(Pruned(st).places)
    ensures !Spaced(s, st).locked ==> Covered(s, Spaced(s, st))
  {
    hide NextSize, Attempted, Dealt, AreaOf, BoxesArea, Tried, Packing, Moved, Refuses;
    var p := Pruned(st);
    PrunedTwice(st);
    PrunedTwice(Spaced(s, st));
    TriedWithin(s, Sizes(p.places), st.width, st.height);
    NextCloser(s, st.width, st.height, st.maxRectWidth, st.maxRectHeight);
    var n := NextSize(s, st.width, st.height, st.maxRectWidth, st.maxRectHeight);
    TriedWithin(s, Sizes(p.places), n.0, n.1);
    MovedCovers(s, p, Tried(s, Sizes(p.places), st.width, st.height));
    MovedCovers(s, p, Tried(s, Sizes(p.places), n.0, n.1));
  }

  lemma BoxTooLarge(s: Setup, st: Store, w: nat, h: nat)
    requires Covered(s, st) && TooLarge(s, st, w, h)
    ensures PlaceIn(s, st, w, h) == None
  {
    hide Packing, Place, AreaOf, BoxesArea;
    var p := PlaceIn(s, st, w, h);
    if p.Some? {
      var box := Rect(p.value.0, p.value.1, w + s.padding, h + s.padding);
      PackingMore(st.boxes, box, st.width, st.height);
      PackingArea(st.boxes + [box], st.width, st.height);
      ProductGrows(st.width, st.height, s.maxWidth, s.maxHeight);
    }
  }

  /** No packer can pack more than there is room for: with too much area there is no spot, unless
      the store gets locked on the way. */
  lemma {:induction false} TooMuchArea(s: Setup, st: Store, w: nat, h: nat, n: nat)
    requires Limits(s) && Covered(s, st) && !st.locked && TooLarge(s, st, w, h)
    ensures var f := Search(s, st, w, h, n); f.spot == None || f.store.locked
    decreases n
  {
    hide Covered, Spaced, AreaOf, PlaceIn;
    CoveredSized(s, st);
    BoxTooLarge(s, st, w, h);
    SearchNow(s, st, w, h, n);
    if n > 0 {
      SpacedCovers(s, st);
      if Spaced(s, st).locked {
        SearchNow(s, Spaced(s, st), w, h, n - 1);
      } else {
        TooMuchArea(s, Spaced(s, st), w, h, n - 1);
      }
    }
  }

  lemma {:induction false} FewerArea(a: seq<Option<Rect>>, b: seq<Option<Rect>>, pad: nat)
    requires |a| == |b| && forall i :: 0 <= i < |a| ==> a[i] == b[i] || a[i] == None
    ensures AreaOf(Sizes(a), pad) <= AreaOf(Sizes(b), pad)
  {
    hide AreaOf, Sizes;
    if a == [] {
      assert a == b;
    } else {
      FewerArea(a[1..], b[1..], pad);
      FirstArea(a, pad);
      FirstArea(b, pad);
      assert a[0] == b[0] || a[0] == None;
    }
  }

  lemma FirstArea(places: seq<Option<Rect>>, pad: nat)
    requires places != []
    ensures AreaOf(Sizes(places), pad) ==
            (if places[0].Some? then (places[0].value.w + pad) * (places[0].value.h + pad) else 0)
                + AreaOf(Sizes(places[1..]), pad)
  {
    if places[0].Some? {
      assert Sizes(places)[1..] == Sizes(places[1..]);
    } else {
      assert Sizes(places) == Sizes(places[1..]);
    }
  }

  lemma CoveredSized(s: Setup, st: Store)
    requires Covered(s, st)
    ensures st.width > 0 && st.height > 0
  {
  }
}
