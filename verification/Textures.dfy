/** ImTextureData and the handshake over it: the core writes pixels and queues what changed,
    a renderer backend keeps a copy and answers the requests in the status. */
module Textures {

  datatype Rect = Rect(x: nat, y: nat, w: nat, h: nat)

  datatype Status = OK | Destroyed | WantCreate | WantUpdates | WantDestroy

  predicate Covers(r: Rect, x: nat, y: nat) {
    r.x <= x < r.x + r.w && r.y <= y < r.y + r.h
  }

  /** The cast `(unsigned short)n` of a non-negative number. */
  function Ushort(n: nat): (m: nat)
    ensures m < 0x1_0000 && m <= n && (n < 0x1_0000 ==> m == n) && (n == 0x1_0000 ==> m == 0)
  {
    n % 0x1_0000
  }

  function Max(a: nat, b: nat): nat { if a >= b then a else b }

  function Min(a: nat, b: nat): nat { if a <= b then a else b }

  const NO_RECT: Rect := Rect(0xFFFF, 0xFFFF, 0, 0)

  /** A block as a request stores it, in 16-bit fields. */
  function Request(q: Rect): Rect { Rect(Ushort(q.x), Ushort(q.y), Ushort(q.w), Ushort(q.h)) }

  /** A block that a request can hold. */
  predicate Narrow(q: Rect) { q.w < 0x1_0000 && q.h < 0x1_0000 }

  /** The update rectangle after request `q` was added to it. */
  function Joined(r: Rect, q: Rect): Rect {
    var x1 := Max(if r.w == 0 then 0 else r.x + r.w, q.x + q.w);
    var y1 := Max(if r.h == 0 then 0 else r.y + r.h, q.y + q.h);
    var x, y := Min(r.x, q.x), Min(r.y, q.y);
    Rect(x, y, Ushort(x1 - x), Ushort(y1 - y))
  }

  /** A block within a texture of at most 65536 pixels a side. */
  predicate Within(q: Rect, width: nat, height: nat) {
    && width <= 0x1_0000 && height <= 0x1_0000 && q.x + q.w <= width && q.y + q.h <= height
    && q.x <= 0xFFFF && q.y <= 0xFFFF
  }

  /** A request covers what its block covers, or nothing at all when a side is 65536 long. */
  lemma RequestCovers(q: Rect, x: nat, y: nat)
    requires Within(q, 0x1_0000, 0x1_0000)
    ensures Covers(Request(q), x, y) <==> Covers(q, x, y) && Narrow(q)
  {
    hide Ushort;
  }

  /** Joining a block to what is there loses nothing exactly when its own request holds it and
      neither side of the result is 65536 long: that length becomes zero. */
  lemma JoinedCovers(r: Rect, q: Rect)
    requires Within(r, 0x1_0000, 0x1_0000) && Within(q, 0x1_0000, 0x1_0000) && Narrow(r)
    requires r.w > 0 && r.h > 0 && q.w > 0 && q.h > 0
    ensures (forall x: nat, y: nat :: Covers(r, x, y) || Covers(q, x, y) ==> Covers(Joined(r, Request(q)), x, y)) <==>
            && Narrow(q)
            && !(Min(r.x, q.x) == 0 && Max(r.x + r.w, q.x + q.w) == 0x1_0000)
            && !(Min(r.y, q.y) == 0 && Max(r.y + r.h, q.y + q.h) == 0x1_0000)
  {
    if Narrow(q) {
      assert Request(q) == q;
      var j := Joined(r, q);
      if j.w == 0 || j.h == 0 {
        assert Covers(r, r.x, r.y) && !Covers(j, r.x, r.y);
      }
    } else {
      WideLost(r, q);
    }
  }

  lemma WideLost(r: Rect, q: Rect)
    requires Within(r, 0x1_0000, 0x1_0000) && Within(q, 0x1_0000, 0x1_0000) && Narrow(r)
    requires q.w > 0 && q.h > 0 && !Narrow(q)
    ensures exists x: nat, y: nat :: Covers(q, x, y) && !Covers(Joined(r, Request(q)), x, y)
  {
    hide Ushort;
    var j := Joined(r, Request(q));
    assert j.w < 0x1_0000 && j.h < 0x1_0000;
    if q.w == 0x1_0000 {
      assert Covers(q, 0, q.y) && Covers(q, 0xFFFF, q.y);
      assert !Covers(j, 0, q.y) || !Covers(j, 0xFFFF, q.y);
    } else {
      assert Covers(q, q.x, 0) && Covers(q, q.x, 0xFFFF);
      assert !Covers(j, q.x, 0) || !Covers(j, q.x, 0xFFFF);
    }
  }

  /** Two pixels at the ends of a row of 65536 join to a rectangle without any pixel. */
  lemma JoinedVanishes()
    ensures var r, q := Rect(0, 0, 1, 1), Rect(0xFFFF, 0, 1, 1);
            && Joined(NO_RECT, Request(r)) == r && Within(q, 0x1_0000, 1) && Narrow(q)
            && forall x, y :: !Covers(Joined(r, Request(q)), x, y)
  {
    assert Joined(Rect(0, 0, 1, 1), Rect(0xFFFF, 0, 1, 1)) == Rect(0, 0, 0, 1);
  }

  /** Within a texture of less than 65536 pixels a side nothing is ever lost. */
  lemma JoinedWithin(r: Rect, q: Rect, width: nat, height: nat)
    requires width < 0x1_0000 && height < 0x1_0000 && Within(q, width, height) && Bounded(r, width, height)
    ensures forall x: nat, y: nat :: Covers(r, x, y) || Covers(q, x, y) ==> Covers(Joined(r, Request(q)), x, y)
  {
    assert Request(q) == q;
  }

  /** The update rectangle has no pixels, or lies within the texture. */
  predicate Bounded(r: Rect, width: nat, height: nat) {
    (r.w == 0 || r.x + r.w <= width) && (r.h == 0 || r.y + r.h <= height)
  }

  lemma JoinedBounded(r: Rect, q: Rect, width: nat, height: nat)
    requires Within(q, width, height) && Bounded(r, width, height)
    ensures Bounded(Joined(r, Request(q)), width, height)
  {
    hide Ushort;
  }

  /** One of the queued blocks covers the pixel. */
  ghost predicate InQueue(us: seq<Rect>, x: nat, y: nat) {
    exists k :: 0 <= k < |us| && Covers(us[k], x, y)
  }

  lemma InQueueMore(us: seq<Rect>, q: Rect)
    ensures forall x: nat, y: nat :: InQueue(us + [q], x, y) <==> InQueue(us, x, y) || Covers(q, x, y)
  {
    forall x: nat, y: nat ensures InQueue(us + [q], x, y) <==> InQueue(us, x, y) || Covers(q, x, y) {
      if InQueue(us, x, y) {
        var k :| 0 <= k < |us| && Covers(us[k], x, y);
        assert (us + [q])[k] == us[k];
      } else if Covers(q, x, y) {
        assert (us + [q])[|us|] == q;
      }
    }
  }

  // ------------------------------------------------------------- the protocol

  /** Pixels, row by row. */
  type Image = seq<seq<nat>>

  /** All that core and backend see of a texture: the backend's copy is meaningless while it has
      none, and a texture that was removed is gone. */
  datatype View = View(
    width: nat, height: nat, status: Status, texId: nat, flagged: bool, unusedFrames: nat,
    updates: seq<Rect>, updateRect: Rect, image: Image, copy: Image, removed: bool)

  ghost predicate Sized(a: Image, width: nat, height: nat) {
    |a| == height && forall y :: 0 <= y < height ==> |a[y]| == width
  }

  ghost predicate Shaped(v: View) {
    Sized(v.image, v.width, v.height) && Sized(v.copy, v.width, v.height)
  }

  ghost predicate Differs(v: View, x: nat, y: nat)
    requires Shaped(v) && x < v.width && y < v.height
  {
    v.image[y][x] != v.copy[y][x]
  }

  /** The bookkeeping is in order. */
  ghost predicate Ready(v: View) {
    && Shaped(v) && Bounded(v.updateRect, v.width, v.height)
    && (v.status == OK || v.status == WantUpdates || v.status == WantDestroy <==> v.texId != 0)
    && (v.status == WantDestroy ==> v.flagged)
    && (v.removed ==> v.flagged && v.texId == 0)
  }

  /** OK means an equal copy; while updates are wanted, every pixel the copy has wrong is in the
      queue, and in the update rectangle when the texture is small enough for its 16-bit fields. */
  ghost predicate Synced(v: View) {
    && Shaped(v)
    && (v.status == OK ==> v.image == v.copy)
    && (v.status == WantUpdates ==>
          && (forall x, y :: 0 <= x < v.width && 0 <= y < v.height && Differs(v, x, y) ==> InQueue(v.updates, x, y))
          && (v.width < 0x1_0000 && v.height < 0x1_0000 ==>
                forall x, y :: 0 <= x < v.width && 0 <= y < v.height && Differs(v, x, y) ==>
                    Covers(v.updateRect, x, y)))
  }

  /** One move of the core or of the backend. */
  datatype Move =
    | CoreDraws(q: Rect, colour: (nat, nat) -> nat)
    | CoreFlags
    | NewFrame
    | BackendServes(id: nat, whole: bool)
    | BackendDrops(junk: nat, directly: bool)

  /** The moves the contract allows: the core draws within the texture and only while nothing is
      being destroyed, and a backend can only lose a texture it has. */
  predicate Allowed(v: View, m: Move) {
    && !v.removed
    && match m
       case CoreDraws(q, _) => v.status != WantDestroy && v.status != Destroyed && Within(q, v.width, v.height)
       case BackendServes(id, whole) => id != 0 && (whole ==> v.width < 0x1_0000 && v.height < 0x1_0000)
       case BackendDrops(_, _) => v.texId != 0
       case _ => true
  }

  function Painted(a: Image, q: Rect, colour: (nat, nat) -> nat): (b: Image)
    ensures |b| == |a| && forall y :: 0 <= y < |a| ==> |b[y]| == |a[y]|
    ensures forall y :: 0 <= y < |a| ==> forall x :: 0 <= x < |a[y]| ==>
        b[y][x] == if Covers(q, x, y) then colour(x, y) else a[y][x]
  {
    seq(|a|, y requires 0 <= y < |a| =>
      seq(|a[y]|, x requires 0 <= x < |a[y]| => if Covers(q, x, y) then colour(x, y) else a[y][x]))
  }

  /** `a` with the pixels of the blocks taken from `b`. */
  ghost function Uploaded(a: Image, b: Image, us: seq<Rect>): (c: Image)
    requires |a| == |b| && forall y :: 0 <= y < |a| ==> |a[y]| == |b[y]|
    ensures |c| == |a| && forall y :: 0 <= y < |a| ==> |c[y]| == |a[y]|
  {
    seq(|a|, y requires 0 <= y < |a| =>
      seq(|a[y]|, x requires 0 <= x < |a[y]| => if InQueue(us, x, y) then b[y][x] else a[y][x]))
  }

  function Blank(a: Image, junk: nat): Image {
    seq(|a|, y requires 0 <= y < |a| => seq(|a[y]|, x => junk))
  }

  /** A block is written and its upload requested. A texture yet to be created needs no request. */
  function Drawn(v: View, q: Rect, colour: (nat, nat) -> nat): View {
    var w := v.(image := Painted(v.image, q, colour), updateRect := Joined(v.updateRect, Request(q)));
    if v.status == OK || v.status == WantUpdates then w.(status := WantUpdates, updates := v.updates + [Request(q)])
        else w
  }

  /** The core's step at the start of a frame. */
  function Framed(v: View): View {
    var a := if v.status == OK then v.(updates := [], updateRect := NO_RECT) else v;
    var b := if a.flagged && a.status != Destroyed then a.(status := WantDestroy) else a;
    var c := if b.status == WantDestroy && b.texId == 0 then b.(status := Destroyed) else b;
    var d := if c.status == Destroyed then if c.flagged then c.(removed := true) else c.(status := WantCreate) else c;
    if d.status == WantDestroy then d.(unusedFrames := d.unusedFrames + 1) else d
  }

  /** A frame removes a texture exactly if that is flagged and the backend has nothing of it left. */
  lemma RemovedWhen(v: View)
    requires Ready(v) && !v.removed
    ensures Framed(v).removed <==> v.flagged && v.texId == 0
  {
  }

  /** A backend that honours the requests. It may upload the queued blocks one by one or the update
      rectangle at once, and it destroys a texture once that was unused for a frame. */
  ghost function Served(v: View, id: nat, whole: bool): View
    requires Shaped(v)
  {
    match v.status
    case WantCreate => v.(copy := v.image, texId := id, status := OK)
    case WantUpdates => v.(copy := Uploaded(v.copy, v.image, if whole then [v.updateRect] else v.updates), status := OK)
    case WantDestroy => if v.unusedFrames > 0 then v.(texId := 0, status := Destroyed) else v
    case _ => v
  }

  /** A backend that loses the texture, whatever was asked of it. One that writes the field
      `directly` leaves it to the next frame to ask for a new texture. */
  function Dropped(v: View, junk: nat, directly: bool): View {
    v.(copy := Blank(v.copy, junk), texId := 0, status := if v.flagged || directly then Destroyed else WantCreate)
  }

  /** Images are equal when their pixels are. */
  lemma SameImage(a: Image, b: Image, width: nat, height: nat)
    requires Sized(a, width, height) && Sized(b, width, height)
    requires forall x, y :: 0 <= x < width && 0 <= y < height ==> a[y][x] == b[y][x]
    ensures a == b
  {
    forall y | 0 <= y < height ensures a[y] == b[y] {
    }
  }

  /** A move, or nothing when it is not allowed. */
  ghost function Step(v: View, m: Move): View
    requires Shaped(v)
  {
    if !Allowed(v, m) then v
    else match m
      case CoreDraws(q, colour) => Drawn(v, q, colour)
      case CoreFlags => v.(flagged := true)
      case NewFrame => Framed(v)
      case BackendServes(id, whole) => Served(v, id, whole)
      case BackendDrops(junk, directly) => Dropped(v, junk, directly)
  }

  lemma StepReady(v: View, m: Move)
    requires Ready(v)
    ensures Ready(Step(v, m))
  {
    if m.CoreDraws? && Allowed(v, m) {
      JoinedBounded(v.updateRect, m.q, v.width, v.height);
    }
  }

  /** What a draw has to meet for the copy to catch up with it: its request holds the block, or no
      pixel that is changed is left to it. */
  ghost predicate Kept(v: View, m: Move)
    requires Ready(v)
  {
    m.CoreDraws? && Allowed(v, m) && v.status != WantCreate ==>
      || Narrow(m.q)
      || forall x, y :: 0 <= x < v.width && 0 <= y < v.height && Covers(m.q, x, y) ==>
           m.colour(x, y) == v.copy[y][x] || InQueue(v.updates, x, y)
  }

  /** That is exact: a draw keeps the texture in step with its queue if and only if it is met. */
  lemma DrawSynced(v: View, m: Move)
    requires Ready(v) && Synced(v) && m.CoreDraws? && Allowed(v, m)
    ensures Synced(Drawn(v, m.q, m.colour)) <==> Kept(v, m)
  {
    hide InQueue, Ushort, Joined;
    var q, w := m.q, Drawn(v, m.q, m.colour);
    if v.status != WantCreate {
      InQueueMore(v.updates, Request(q));
      assert w.status == WantUpdates && w.updates == v.updates + [Request(q)];
      forall x, y | 0 <= x < v.width && 0 <= y < v.height
        ensures Differs(w, x, y) == if Covers(q, x, y) then m.colour(x, y) != v.copy[y][x] else Differs(v, x, y)
        ensures Covers(Request(q), x, y) <==> Covers(q, x, y) && Narrow(q)
      {
        RequestCovers(q, x, y);
      }
      if v.width < 0x1_0000 && v.height < 0x1_0000 {
        JoinedWithin(v.updateRect, q, v.width, v.height);
      }
    }
  }

  /** Every other move keeps it in step, and one that serves a new texture brings it there. */
  lemma StepSynced(v: View, m: Move)
    requires Ready(v) && Synced(v) && Kept(v, m)
    ensures Synced(Step(v, m))
  {
    if Allowed(v, m) {
      match m
      case CoreDraws(q, colour) => DrawSynced(v, m);
      case CoreFlags =>
      case NewFrame =>
      case BackendServes(id, whole) => ServedSynced(v, id, whole);
      case BackendDrops(junk, directly) =>
    }
  }

  lemma ServedSynced(v: View, id: nat, whole: bool)
    requires Ready(v) && (Synced(v) || v.status == WantCreate) && (whole ==> v.width < 0x1_0000 && v.height < 0x1_0000)
    ensures Synced(Served(v, id, whole))
  {
    if v.status == WantUpdates {
      var us := if whole then [v.updateRect] else v.updates;
      var w := Served(v, id, whole);
      forall y | 0 <= y < v.height ensures w.copy[y] == w.image[y] {
        forall x | 0 <= x < v.width ensures w.copy[y][x] == w.image[y][x] {
          if Differs(v, x, y) && whole { assert us[0] == v.updateRect; }
        }
      }
      assert w.copy == w.image;
    }
  }

  // --------------------------------------------------------------------- runs

  ghost function After(v: View, moves: seq<Move>): (w: View)
    requires Ready(v)
    ensures Ready(w) && w.width == v.width && w.height == v.height
  {
    if moves == [] then v
    else
      var u := After(v, moves[..|moves| - 1]);
      StepReady(u, moves[|moves| - 1]);
      Step(u, moves[|moves| - 1])
  }

  /** Every draw of the run was kept. */
  ghost predicate AllKept(v: View, moves: seq<Move>)
    requires Ready(v)
  {
    forall k :: 0 <= k < |moves| ==> Kept(After(v, moves[..k]), moves[k])
  }

  /** In every interleaving in which each draw is kept, as it is when no side of a block is 65536
      long, OK means that the backend's copy equals the pixels. */
  lemma {:induction false} RunSynced(v: View, moves: seq<Move>)
    requires Ready(v) && Synced(v) && AllKept(v, moves)
    ensures Synced(After(v, moves))
    ensures After(v, moves).status == OK ==> After(v, moves).image == After(v, moves).copy
    decreases |moves|
  {
    if moves != [] {
      var n := |moves| - 1;
      forall k | 0 <= k < n ensures Kept(After(v, moves[..n][..k]), moves[..n][k]) {
        assert moves[..n][..k] == moves[..k];
      }
      RunSynced(v, moves[..n]);
      StepSynced(After(v, moves[..n]), moves[n]);
    }
  }

  lemma NarrowKept(v: View, moves: seq<Move>)
    requires Ready(v) && forall k :: 0 <= k < |moves| && moves[k].CoreDraws? ==> Narrow(moves[k].q)
    ensures AllKept(v, moves)
  {
  }

  /** A texture that was not flagged is not removed, whatever happens. */
  lemma {:induction false} NotRemoved(v: View, moves: seq<Move>)
    requires Ready(v) && !v.flagged && forall k :: 0 <= k < |moves| ==> !moves[k].CoreFlags?
    ensures !After(v, moves).flagged && !After(v, moves).removed
    decreases |moves|
  {
    if moves != [] {
      NotRemoved(v, moves[..|moves| - 1]);
    }
  }

  /** A texture that is not flagged and that the backend has dropped asks to be created again, at
      the latest after the next frame; and serving that request makes it whole. */
  lemma Recreated(v: View, junk: nat, directly: bool, id: nat)
    requires Ready(v) && !v.flagged && v.texId != 0 && id != 0
    ensures var w := Framed(Dropped(v, junk, directly));
            w.status == WantCreate && Served(w, id, false).status == OK && Served(w, id, false).copy == v.image
  {
  }

  /** A flagged texture the backend knows is gone after the next frame, one visit of a serving
      backend, and one more frame; one the backend never saw is gone at once. */
  lemma Retired(v: View, id: nat)
    requires Ready(v) && v.flagged && id != 0
    ensures Framed(v).removed <==> v.texId == 0
    ensures Framed(Served(Framed(v), id, false)).removed
  {
  }

  /** A backend with an equal copy of a texture as wide as it may be; the core fills its first row;
      the backend answers: it then says OK over a copy that is wrong. */
  lemma FullRowLost(v: View, c: nat)
    requires Ready(v) && Synced(v) && v.status == OK && v.updates == [] && !v.removed
    requires v.width == 0x1_0000 && 0 < v.height <= 0x1_0000 && c != v.image[0][0]
    ensures var row := CoreDraws(Rect(0, 0, 0x1_0000, 1), (x, y) => c);
            var w := After(v, [row, BackendServes(1, false)]);
            && Allowed(v, row) && !Kept(v, row)
            && w.status == OK && w.image[0][0] == c && w.copy == v.copy && w.image != w.copy
  {
    hide After, Ready, Synced, Framed, Dropped;
    var row := CoreDraws(Rect(0, 0, 0x1_0000, 1), (x, y) => c);
    var serve := BackendServes(1, false);
    AfterTwo(v, row, serve);
    RowNotQueued(v, c);
    RowServed(v, c);
  }

  lemma RowServed(v: View, c: nat)
    requires Ready(v) && Synced(v) && v.status == OK && v.updates == [] && !v.removed
    requires v.width == 0x1_0000 && 0 < v.height <= 0x1_0000 && c != v.image[0][0]
    ensures var row := CoreDraws(Rect(0, 0, 0x1_0000, 1), (x, y) => c);
            var w := Step(Step(v, row), BackendServes(1, false));
            && Allowed(v, row) && !Kept(v, row)
            && w.status == OK && w.image[0][0] == c && w.copy == v.copy && w.image != w.copy
  {
    hide Uploaded, Joined, Framed, Dropped;
    var row := CoreDraws(Rect(0, 0, 0x1_0000, 1), (x, y) => c);
    RowNotQueued(v, c);
    assert Covers(row.q, 0, 0) && !InQueue(v.updates, 0, 0);
    var d := Step(v, row);
    assert d == Drawn(v, row.q, row.colour) && d.status == WantUpdates && d.image[0][0] == c;
  }

  lemma AfterTwo(v: View, m: Move, n: Move)
    requires Ready(v)
    ensures Shaped(Step(v, m)) && After(v, [m, n]) == Step(Step(v, m), n)
  {
    StepReady(v, m);
    hide Step, Ready;
    assert [m, n][..1] == [m] && [m][..0] == [];
    assert After(v, [m]) == Step(v, m);
  }

  lemma RowNotQueued(v: View, c: nat)
    requires Shaped(v) && v.status == OK && v.updates == [] && v.width == 0x1_0000 && 0 < v.height
    ensures var d := Drawn(v, Rect(0, 0, 0x1_0000, 1), (x, y) => c);
            Shaped(d) && d.updates == [Rect(0, 0, 0, 1)] && Uploaded(d.copy, d.image, d.updates) == v.copy
  {
    var d := Drawn(v, Rect(0, 0, 0x1_0000, 1), (x, y) => c);
    forall x: nat, y: nat ensures !InQueue(d.updates, x, y) {
    }
    SameImage(Uploaded(d.copy, d.image, d.updates), v.copy, v.width, v.height);
  }

  // --------------------------------------------------------------- the object

  class TextureData {
    const width: nat
    const height: nat
    const pixels: array2<nat>
    const copy: array2<nat>          // the backend's texture
    var status: Status
    var texId: nat                   // 0 is invalid
    var updates: seq<Rect>
    var updateRect: Rect
    var unusedFrames: nat
    var wantDestroyNextFrame: bool

    ghost predicate Shape() {
      && pixels.Length0 == copy.Length0 == width && pixels.Length1 == copy.Length1 == height
      && pixels != copy
    }

    ghost function Seen(removed: bool): (v: View)
      requires Shape()
      reads this, pixels, copy
      ensures Shaped(v)
    {
      View(width, height, status, texId, wantDestroyNextFrame, unusedFrames, updates, updateRect, Rows(pixels),
          Rows(copy), removed)
    }

    /** A new texture, cleared, to be created by the backend. */
    constructor (width: nat, height: nat)
      ensures Shape() && this.width == width && this.height == height && fresh(pixels) && fresh(copy)
      ensures Ready(Seen(false)) && Synced(Seen(false))
      ensures status == WantCreate && texId == 0 && updates == [] && !wantDestroyNextFrame
      ensures forall x, y :: 0 <= x < width && 0 <= y < height ==> pixels[x, y] == 0
    {
      this.width, this.height := width, height;
      pixels := new nat[width, height]((x, y) => 0);
      copy := new nat[width, height];
      status, texId, updates, updateRect := WantCreate, 0, [], NO_RECT;
      unusedFrames, wantDestroyNextFrame := 0, false;
    }

    /** Tells the backend about a block that was written. */
    method QueueUpload(q: Rect)
      requires Shape() && Within(q, width, height) && status != WantDestroy && status != Destroyed
      modifies this`status, this`updates, this`updateRect
      ensures updateRect == Joined(old(updateRect), Request(q))
      ensures var asked := old(status) == OK || old(status) == WantUpdates;
              && status == (if asked then WantUpdates else old(status))
              && updates == if asked then old(updates) + [Request(q)] else old(updates)
    {
      hide Ushort;
      var req := Rect(Ushort(q.x), Ushort(q.y), Ushort(q.w), Ushort(q.h));
      var x1 := Max(if updateRect.w == 0 then 0 else updateRect.x + updateRect.w, req.x + req.w);
      var y1 := Max(if updateRect.h == 0 then 0 else updateRect.y + updateRect.h, req.y + req.h);
      var x, y := Min(updateRect.x, req.x), Min(updateRect.y, req.y);
      updateRect := Rect(x, y, Ushort(x1 - x), Ushort(y1 - y));
      if status == OK || status == WantUpdates {
        status := WantUpdates;
        updates := updates + [req];
      }
    }

    /** Fills a block, and nothing else. */
    method Fill(q: Rect, colour: (nat, nat) -> nat)
      requires Shape() && q.x + q.w <= width && q.y + q.h <= height
      modifies pixels
      ensures forall x, y :: 0 <= x < width && 0 <= y < height ==>
                pixels[x, y] == if Covers(q, x, y) then colour(x, y) else old(pixels[x, y])
    {
      for j := 0 to q.h
        invariant forall x, y :: 0 <= x < width && 0 <= y < height ==>
                    pixels[x, y] == if Covers(q, x, y) && y < q.y + j then colour(x, y) else old(pixels[x, y])
      {
        FillRow(q, q.y + j, colour);
      }
    }

    method FillRow(q: Rect, row: nat, colour: (nat, nat) -> nat)
      requires Shape() && q.x + q.w <= width && row < height
      modifies pixels
      ensures forall x, y :: 0 <= x < width && 0 <= y < height ==>
                pixels[x, y] == if q.x <= x < q.x + q.w && y == row then colour(x, y) else old(pixels[x, y])
    {
      forall x | q.x <= x < q.x + q.w {
        pixels[x, row] := colour(x, row);
      }
    }

    /** Writes a block and queues it. */
    method Draw(q: Rect, colour: (nat, nat) -> nat)
      requires Shape() && Allowed(Seen(false), CoreDraws(q, colour))
      modifies this`status, this`updates, this`updateRect, pixels
      ensures Seen(false) == Drawn(old(Seen(false)), q, colour)
    {
      hide Joined, Ushort;
      Fill(q, colour);
      SameImage(Rows(pixels), Painted(old(Rows(pixels)), q, colour), width, height);
      QueueUpload(q);
    }

    /** The backend's way of changing the status. */
    method SetStatus(s: Status)
      modifies this`status
      ensures status == if s == Destroyed && !wantDestroyNextFrame then WantCreate else s
    {
      status := s;
      if s == Destroyed && !wantDestroyNextFrame {
        status := WantCreate;
      }
    }

    /** A backend that honours the requests. */
    method Serve(id: nat, whole: bool)
      requires Shape() && id != 0 && Ready(Seen(false))
      modifies this`status, this`texId, copy
      ensures Seen(false) == Served(old(Seen(false)), id, whole)
    {
      if status == WantCreate {
        forall x, y | 0 <= x < width && 0 <= y < height {
          copy[x, y] := pixels[x, y];
        }
        SameImage(Rows(copy), Rows(pixels), width, height);
        texId := id;
        SetStatus(OK);
      } else if status == WantUpdates {
        Upload(if whole then [updateRect] else updates);
        SetStatus(OK);
      } else if status == WantDestroy && unusedFrames > 0 {
        texId := 0;
        SetStatus(Destroyed);
      }
    }

    /** Uploads blocks one by one. */
    method Upload(us: seq<Rect>)
      requires Shape()
      modifies copy
      ensures Rows(copy) == Uploaded(old(Rows(copy)), Rows(pixels), us)
    {
      for k := 0 to |us|
        invariant forall x, y :: 0 <= x < width && 0 <= y < height ==>
                    copy[x, y] == if InQueue(us[..k], x, y) then pixels[x, y] else old(copy[x, y])
      {
        InQueueMore(us[..k], us[k]);
        assert us[..k + 1] == us[..k] + [us[k]];
        forall x, y | 0 <= x < width && 0 <= y < height && Covers(us[k], x, y) {
          copy[x, y] := pixels[x, y];
        }
      }
      assert us[..|us|] == us;
      SameImage(Rows(copy), Uploaded(old(Rows(copy)), Rows(pixels), us), width, height);
    }

    /** A backend that loses the texture. */
    method Drop(junk: nat, directly: bool)
      requires Shape() && texId != 0
      modifies this`status, this`texId, copy
      ensures Seen(false) == Dropped(old(Seen(false)), junk, directly)
    {
      forall x, y | 0 <= x < width && 0 <= y < height {
        copy[x, y] := junk;
      }
      SameImage(Rows(copy), Blank(old(Rows(copy)), junk), width, height);
      texId := 0;
      if directly {
        status := Destroyed;
      } else {
        SetStatus(Destroyed);
      }
    }

    /** The core's step at the start of a frame; `remove` tells it to take the texture off its list. */
    method UpdateNewFrame() returns (remove: bool)
      requires Shape()
      modifies this`status, this`updates, this`updateRect, this`unusedFrames
      ensures Seen(remove) == Framed(old(Seen(false)))
    {
      remove := false;
      if status == OK {
        updates := [];
        updateRect := NO_RECT;
      }
      if wantDestroyNextFrame && status != Destroyed && status != WantDestroy {
        status := WantDestroy;
      }
      if status == WantDestroy && texId == 0 {
        status := Destroyed;
      }
      if status == Destroyed {
        if wantDestroyNextFrame {
          remove := true;
        } else {
          status := WantCreate;
        }
      }
      if status == WantDestroy {
        unusedFrames := unusedFrames + 1;
      }
    }
  }

  ghost function Rows(a: array2<nat>): (rows: Image)
    reads a
    ensures Sized(rows, a.Length0, a.Length1)
    ensures forall x, y :: 0 <= x < a.Length0 && 0 <= y < a.Length1 ==> rows[y][x] == a[x, y]
  {
    seq(a.Length1, y requires 0 <= y < a.Length1 reads a =>
      seq(a.Length0, x requires 0 <= x < a.Length0 reads a => a[x, y]))
  }

  /** The same move on the object. */
  method Do(t: TextureData, m: Move) returns (removed: bool)
    requires t.Shape() && Ready(t.Seen(false)) && Allowed(t.Seen(false), m)
    modifies t, t.pixels, t.copy
    ensures t.Seen(removed) == Step(old(t.Seen(false)), m)
  {
    removed := false;
    match m
    case CoreDraws(q, colour) => t.Draw(q, colour);
    case CoreFlags => t.wantDestroyNextFrame := true;
    case NewFrame => removed := t.UpdateNewFrame();
    case BackendServes(id, whole) => t.Serve(id, whole);
    case BackendDrops(junk, directly) => t.Drop(junk, directly);
  }

  predicate AllowedNow(t: TextureData, m: Move)
    reads t
  {
    match m
    case CoreDraws(q, _) => t.status != WantDestroy && t.status != Destroyed && Within(q, t.width, t.height)
    case BackendServes(id, whole) => id != 0 && (whole ==> t.width < 0x1_0000 && t.height < 0x1_0000)
    case BackendDrops(_, _) => t.texId != 0
    case _ => true
  }

  /** Any interleaving of moves, each of which is left out when it is not allowed in its turn: the
      object goes through exactly the views the protocol gives. */
  method Run(t: TextureData, moves: seq<Move>) returns (removed: bool)
    requires t.Shape() && Ready(t.Seen(false))
    modifies t, t.pixels, t.copy
    ensures t.Seen(removed) == After(old(t.Seen(false)), moves)
  {
    hide Step, Ready;
    removed := false;
    ghost var start := t.Seen(false);
    for i := 0 to |moves|
      invariant t.Seen(removed) == After(start, moves[..i])
    {
      assert moves[..i + 1][..i] == moves[..i];
      if !removed && AllowedNow(t, moves[i]) {
        removed := Do(t, moves[i]);
      } else {
        NotAllowed(t.Seen(removed), moves[i]);
      }
    }
    assert moves[..|moves|] == moves;
  }

  lemma NotAllowed(v: View, m: Move)
    requires Shaped(v) && !Allowed(v, m)
    ensures Step(v, m) == v
  {
  }

  /** The same on an object: a backend creates the texture, the core fills its only row, the backend
      answers, and its copy is wrong. */
  method FullRow() returns (t: TextureData)
    ensures t.Shape() && t.status == OK && Rows(t.pixels) != Rows(t.copy)
  {
    hide Ready, Synced, Drawn, After, Ushort, Joined;
    t := new TextureData(0x1_0000, 1);
    ghost var v0 := t.Seen(false);
    t.Serve(1, false);
    ghost var v := t.Seen(false);
    CreatedServed(v0);
    var row := CoreDraws(Rect(0, 0, 0x1_0000, 1), (x, y) => 1);
    FullRowLost(v, 1);
    AfterTwo(v, row, BackendServes(1, false));
    var removed := Do(t, row);
    StepReady(v, row);
    removed := Do(t, BackendServes(1, false));
  }

  lemma CreatedServed(v: View)
    requires Ready(v) && v.status == WantCreate && v.updates == [] && !v.removed && v.width == 0x1_0000 && v.height == 1
    requires v.image[0][0] == 0
    ensures var w := Served(v, 1, false);
            Ready(w) && Synced(w) && w.status == OK && w.updates == [] && !w.removed && w.image[0][0] == 0
  {
  }
}
