/** ImDrawList: commands, indices and vertices are appended under lazily managed commands. */
module DrawLists {
  import opened Options
  import opened DrawCommands

  /** `n` slots whose contents are arbitrary until written. */
  method Uninitialised<T(0)>(n: nat) returns (s: seq<T>)
    ensures |s| == n
  {
    var t: T := *;
    s := seq(n, _ => t);
  }

  /** The rectangle PushClipRect makes current. */
  function PushedClip(current: Rect, lo: Vec2, hi: Vec2, intersect: bool): Rect {
    var x := if intersect && lo.x < current.x then current.x else lo.x;
    var y := if intersect && lo.y < current.y then current.y else lo.y;
    var z := if intersect && hi.x > current.z then current.z else hi.x;
    var w := if intersect && hi.y > current.w then current.w else hi.y;
    Rect(x, y, if x >= z then x else z, if y >= w then y else w)
  }

  method ClippedRect(current: Rect, lo: Vec2, hi: Vec2, intersect: bool) returns (cr: Rect)
    ensures cr == PushedClip(current, lo, hi, intersect)
  {
    cr := Rect(lo.x, lo.y, hi.x, hi.y);
    if intersect {
      if cr.x < current.x { cr := cr.(x := current.x); }
      if cr.y < current.y { cr := cr.(y := current.y); }
      if cr.z > current.z { cr := cr.(z := current.z); }
      if cr.w > current.w { cr := cr.(w := current.w); }
    }
    cr := cr.(z := if cr.x >= cr.z then cr.x else cr.z);
    cr := cr.(w := if cr.y >= cr.w then cr.y else cr.w);
  }

  predicate Contains(r: Rect, p: Vec2) {
    r.x <= p.x < r.z && r.y <= p.y < r.w
  }

  /** A pushed rectangle is never inverted, and it shows exactly the pixels of the requested
      rectangle, cut down to the current one when intersecting. */
  lemma PushedClipMeaning(current: Rect, lo: Vec2, hi: Vec2, intersect: bool, p: Vec2)
    ensures var r := PushedClip(current, lo, hi, intersect);
            && r.x <= r.z && r.y <= r.w
            && (Contains(r, p) <==> Contains(Rect(lo.x, lo.y, hi.x, hi.y), p) && (intersect ==> Contains(current, p)))
  {
  }

  /** A primitive of `n` vertices opens a new 16-bit index window. */
  predicate OpensWindow(allow: bool, base: nat, n: nat) { allow && base + n >= INDEX_RANGE }

  /** The vertex base PrimReserve leaves in force: 0 when it had to open a new 16-bit window. */
  function BaseAfterReserve(allow: bool, current: nat, vtxCount: nat): nat {
    if OpensWindow(allow, current, vtxCount) then 0 else current
  }

  /** The header once a primitive is reserved behind `vertices` vertices. */
  function HeaderAfterReserve(h: Header, opens: bool, vertices: nat): Header {
    if opens then h.(vtxOffset := vertices) else h
  }

  /** The command buffer by then: the open command takes the indices, unless a new window opens. */
  function CmdsAfterReserve(cmds: seq<DrawCmd>, h: Header, opens: bool, vertices: nat, total: nat,
      idxCount: nat): seq<DrawCmd>
    requires cmds != []
  {
    Resized(if opens then VtxOffsetChanged(cmds, HeaderAfterReserve(h, opens, vertices), total) else cmds, idxCount)
  }

  /** Every index fits 16 bits without wrapping. */
  predicate Fits(base: nat, tris: seq<nat>) {
    forall t :: t in tris ==> base + t < INDEX_RANGE
  }

  function Rebased(base: nat, tris: seq<nat>): seq<Index> {
    seq(|tris|, k requires 0 <= k < |tris| => ToIndex(base + tris[k]))
  }

  /** What a mesh should render: its triangles over its own vertices, which start at `first`. */
  function MeshEvents(clip: Rect, tex: TextureRef, first: nat, tris: seq<nat>): seq<Event> {
    seq(|tris|, k requires 0 <= k < |tris| => Elem(clip, tex, first + tris[k]))
  }

  /** Indices written under a header resolve to the mesh's own vertices exactly when none wraps. */
  lemma IndicesResolve(h: Header, base: nat, tris: seq<nat>)
    ensures Elems(h, Rebased(base, tris)) == MeshEvents(h.clip, h.tex, h.vtxOffset + base, tris)
            <==> Fits(base, tris)
  {
    var got, want := Elems(h, Rebased(base, tris)), MeshEvents(h.clip, h.tex, h.vtxOffset + base, tris);
    if Fits(base, tris) {
      forall k | 0 <= k < |tris| ensures got[k] == want[k] {
        assert tris[k] in tris;
      }
      assert |got| == |want|;
      assert got == want;
    } else {
      var t :| t in tris && base + t >= INDEX_RANGE;
      var k :| 0 <= k < |tris| && tris[k] == t;
      assert got[k].vertex < h.vtxOffset + INDEX_RANGE <= want[k].vertex;
    }
  }

  /** With vertex offsets enabled a mesh of at most 65536 vertices always fits; without them it
      fits as long as the list as a whole stays within 65536 vertices. */
  lemma SmallMeshFits(allow: bool, current: nat, vtxCount: nat, tris: seq<nat>)
    requires forall t :: t in tris ==> t < vtxCount
    requires if allow then vtxCount <= INDEX_RANGE else current + vtxCount <= INDEX_RANGE
    ensures Fits(BaseAfterReserve(allow, current, vtxCount), tris)
  {
  }

  /** `s` with `more` written over it from position `at`. */
  function Splice<T>(s: seq<T>, at: nat, more: seq<T>): (r: seq<T>)
    requires at + |more| <= |s|
    ensures |r| == |s| && r[..at] == s[..at] && r[at..at + |more|] == more && r[at + |more|..] == s[at + |more|..]
  {
    s[..at] + more + s[at + |more|..]
  }

  lemma AppendCancel<T>(a: seq<T>, b: seq<T>, c: seq<T>)
    ensures a + b == a + c <==> b == c
  {
    assert (a + b)[|a|..] == b && (a + c)[|a|..] == c;
  }

  /** No bit of the alpha mask is set. */
  predicate Transparent(col: nat) {
    col / 0x100_0000 % 0x100 == 0
  }

  function RectVertices(a: Vec2, c: Vec2, uv: Vec2, col: nat): seq<Vertex> {
    [Vertex(a, uv, col), Vertex(Vec2(c.x, a.y), uv, col), Vertex(c, uv, col), Vertex(Vec2(a.x, c.y), uv, col)]
  }

  function FlatVertices(points: seq<Vec2>, uv: Vec2, col: nat): seq<Vertex> {
    seq(|points|, k requires 0 <= k < |points| => Vertex(points[k], uv, col))
  }

  const RECT_TRIS: seq<nat> := [0, 1, 2, 0, 2, 3]

  /** A triangle fan over `n` points. */
  function FanTris(n: nat): (tris: seq<nat>)
    ensures forall t :: t in tris ==> t < n
    ensures |tris| == if n < 3 then 0 else 3 * (n - 2)
  {
    if n < 3 then [] else FanTris(n - 1) + [0, n - 2, n - 1]
  }

  /** What decides where a primitive is reserved. */
  datatype Extent = Extent(cmds: seq<DrawCmd>, header: Header, base: nat, vertices: nat, indices: nat)

  lemma NoFan(base: nat)
    ensures Rebased(base, FanTris(2)) == []
  {
    assert FanTris(2) == [];
  }

  /** One triangle more. */
  lemma FanMore(base: nat, i: nat)
    requires i >= 2
    ensures Rebased(base, FanTris(i + 1)) ==
        Rebased(base, FanTris(i)) + [ToIndex(base), ToIndex(base + i - 1), ToIndex(base + i)]
  {
    hide ToIndex;
  }

  class DrawList {
    var cmdBuffer: seq<DrawCmd>
    var idxBuffer: seq<Index>
    var vtxBuffer: seq<Vertex>
    var allowVtxOffset: bool
    var vtxCurrentIdx: nat
    var vtxWritePtr: nat        // distance from the start of vtxBuffer
    var idxWritePtr: nat        // distance from the start of idxBuffer
    var cmdHeader: Header
    var clipRectStack: seq<Rect>
    var textureStack: seq<TextureRef>
    var callbacksDataBuf: seq<Byte>
    const clipRectFullscreen: Rect
    const texUvWhitePixel: Vec2

    /** The last command is open, matches the current header and covers everything reserved. */
    ghost predicate Valid()
      reads this
    {
      && Covers(cmdBuffer, |idxBuffer|, idxWritePtr)
      && Last(cmdBuffer).header == cmdHeader
      && vtxWritePtr <= |vtxBuffer|
      && cmdHeader.vtxOffset + vtxCurrentIdx == vtxWritePtr
    }

    /** Everything reserved has been written. */
    ghost predicate Settled()
      reads this
    {
      idxWritePtr == |idxBuffer| && vtxWritePtr == |vtxBuffer|
    }

    /** What a backend would render of the part already written. */
    ghost function Trace(): seq<Event>
      requires Valid()
      reads this
    {
      TraceOf(cmdBuffer, idxBuffer, idxWritePtr)
    }

    /** Once settled, the trace is what a backend makes of the buffers as they are. */
    lemma SettledTrace()
      requires Valid() && Settled()
      ensures InBounds(cmdBuffer, |idxBuffer|) && Trace() == Render(cmdBuffer, idxBuffer)
    {
      TraceSettled(cmdBuffer, idxBuffer);
    }

    /** A fresh list, as `_ResetForNewFrame` leaves it. */
    constructor (allow: bool, fullscreen: Rect, white: Vec2)
      ensures Valid() && Settled() && Trace() == []
      ensures cmdHeader == Header(Rect(0.0, 0.0, 0.0, 0.0), TextureRef(0, 0), 0)
      ensures vtxBuffer == [] && idxBuffer == [] && clipRectStack == [] && textureStack == [] && callbacksDataBuf == []
      ensures allowVtxOffset == allow && clipRectFullscreen == fullscreen && texUvWhitePixel == white
      ensures cmdBuffer == [NewCmd(cmdHeader, 0)]
    {
      clipRectFullscreen, texUvWhitePixel := fullscreen, white;
      cmdBuffer, idxBuffer, vtxBuffer := [], [], [];
      allowVtxOffset := allow;
      cmdHeader := Header(Rect(0.0, 0.0, 0.0, 0.0), TextureRef(0, 0), 0);
      vtxCurrentIdx, vtxWritePtr, idxWritePtr := 0, 0, 0;
      clipRectStack, textureStack, callbacksDataBuf := [], [], [];
      new;
      AddEmptyCmd([], cmdHeader, []);
      cmdBuffer := [NewCmd(cmdHeader, 0)];
      assert [] + [NewCmd(cmdHeader, 0)] == cmdBuffer;
    }

    /** Opens a new command under the current header. */
    method AddDrawCmd()
      modifies this`cmdBuffer
      ensures cmdBuffer == old(cmdBuffer) + [NewCmd(cmdHeader, |idxBuffer|)]
      ensures old(Valid() && Settled()) ==> Valid() && Trace() == old(Trace())
    {
      ghost var cmds := cmdBuffer;
      cmdBuffer := cmdBuffer + [DrawCmd(cmdHeader, |idxBuffer|, 0, None)];
      if old(Valid() && Settled()) {
        AddEmptyCmd(cmds, cmdHeader, idxBuffer);
        TraceSettled(cmds, idxBuffer);
        TraceSettled(cmdBuffer, idxBuffer);
      }
    }

    /** Drops trailing commands that draw nothing; what is left need not be Valid. */
    method PopUnusedDrawCmd()
      requires Chained(cmdBuffer, |idxBuffer|)
      modifies this`cmdBuffer
      ensures cmdBuffer <= old(cmdBuffer) && Chained(cmdBuffer, |idxBuffer|)
      ensures cmdBuffer == [] || Last(cmdBuffer).elemCount != 0 || Last(cmdBuffer).callback.Some?
      ensures forall i :: |cmdBuffer| <= i < |old(cmdBuffer)| ==>
                old(cmdBuffer)[i].elemCount == 0 && old(cmdBuffer)[i].callback.None?
      ensures InBounds(cmdBuffer, |idxBuffer|) && InBounds(old(cmdBuffer), |idxBuffer|)
      ensures Render(cmdBuffer, idxBuffer) == Render(old(cmdBuffer), idxBuffer)
    {
      hide Render, Chained;
      ChainedInBounds(cmdBuffer, |idxBuffer|);
      while |cmdBuffer| > 0
        invariant cmdBuffer <= old(cmdBuffer) && Chained(cmdBuffer, |idxBuffer|)
        invariant InBounds(cmdBuffer, |idxBuffer|)
        invariant Render(cmdBuffer, idxBuffer) == Render(old(cmdBuffer), idxBuffer)
        invariant forall i :: |cmdBuffer| <= i < |old(cmdBuffer)| ==>
                    old(cmdBuffer)[i].elemCount == 0 && old(cmdBuffer)[i].callback.None?
        decreases |cmdBuffer|
      {
        var curr := Last(cmdBuffer);
        if curr.elemCount != 0 || curr.callback.Some? {
          return;
        }
        DropEmptyCmd(cmdBuffer, idxBuffer);
        cmdBuffer := Init(cmdBuffer);
      }
    }

    /** Queues a callback between what was drawn before and what is drawn after it. */
    method AddCallback(fn: nat, userdata: nat, data: seq<Byte>)
      requires Valid() && Settled()
      modifies this`cmdBuffer, this`callbacksDataBuf
      ensures Valid() && Settled()
      ensures callbacksDataBuf == old(callbacksDataBuf) + data
      ensures var cb := Callback(fn, if data == [] then Direct(userdata) else Stored(|old(callbacksDataBuf)|, |data|));
              && Trace() == old(Trace()) + [Call(cb)]
              && cmdBuffer == CallbackAdded(old(cmdBuffer), cmdHeader, |idxBuffer|, cb)
    {
      hide Render;
      ghost var trace := Trace();
      SettledTrace();
      var curr := Last(cmdBuffer);
      if curr.elemCount != 0 {
        AddDrawCmd();
        curr := Last(cmdBuffer);
      }
      SettledTrace();
      DropEmptyCmd(cmdBuffer, idxBuffer);
      if |data| == 0 {
        curr := curr.(callback := Some(Callback(fn, Direct(userdata))));
      } else {
        curr := curr.(callback := Some(Callback(fn, Stored(|callbacksDataBuf|, |data|))));
        callbacksDataBuf := callbacksDataBuf + data;
      }
      ChainedSnoc(Init(cmdBuffer), curr, |idxBuffer|);
      RenderSnoc(Init(cmdBuffer), curr, idxBuffer);
      cmdBuffer := Init(cmdBuffer) + [curr];
      AddEmptyCmd(cmdBuffer, cmdHeader, idxBuffer);
      AddDrawCmd();
      SettledTrace();
    }

    /** Joins the two last commands when they are adjacent and agree. */
    method TryMergeDrawCmds()
      requires |cmdBuffer| > 1 && InBounds(cmdBuffer, |idxBuffer|)
      modifies this`cmdBuffer
      ensures InBounds(cmdBuffer, |idxBuffer|) && Render(cmdBuffer, idxBuffer) == Render(old(cmdBuffer), idxBuffer)
      ensures old(Chained(cmdBuffer, |idxBuffer|)) ==> Chained(cmdBuffer, |idxBuffer|)
      ensures var n := |old(cmdBuffer)|;
              var prev, curr := old(cmdBuffer)[n - 2], old(cmdBuffer)[n - 1];
              cmdBuffer == if prev.header == curr.header && prev.End() == curr.idxOffset && prev.callback.None?
                  && curr.callback.None?
                           then old(cmdBuffer)[..n - 2] + [prev.(elemCount := prev.elemCount + curr.elemCount)]
                           else old(cmdBuffer)
    {
      hide Render, Chained, InBounds;
      var curr, prev := Last(cmdBuffer), cmdBuffer[|cmdBuffer| - 2];
      if curr.header == prev.header && prev.End() == curr.idxOffset && curr.callback.None? && prev.callback.None? {
        ghost var front := cmdBuffer[..|cmdBuffer| - 2];
        assert cmdBuffer == front + [prev, curr];
        JoinKeeps(front, prev, curr, idxBuffer);
        if Chained(cmdBuffer, |idxBuffer|) {
          RenderJoin(front, prev, curr, idxBuffer);
        }
        cmdBuffer := Init(Init(cmdBuffer)) + [prev.(elemCount := prev.elemCount + curr.elemCount)];
        assert Init(Init(old(cmdBuffer))) == front;
      }
    }

    /** The header's clip rectangle has changed since the last command was opened. */
    method OnChangedClipRect(ghost before: Header)
      requires Ready(cmdBuffer, before, |idxBuffer|) && before.(clip := cmdHeader.clip) == cmdHeader
      modifies this`cmdBuffer
      ensures cmdBuffer == ClipChanged(old(cmdBuffer), cmdHeader, |idxBuffer|)
      ensures Ready(cmdBuffer, cmdHeader, |idxBuffer|)
      ensures InBounds(cmdBuffer, |idxBuffer|) && InBounds(old(cmdBuffer), |idxBuffer|)
      ensures Render(cmdBuffer, idxBuffer) == Render(old(cmdBuffer), idxBuffer)
    {
      ClipChangedKeepsRendering(cmdBuffer, before, cmdHeader, idxBuffer);
      var curr := Last(cmdBuffer);
      if curr.elemCount != 0 && curr.header.clip != cmdHeader.clip {
        AddDrawCmd();
        return;
      }
      if curr.elemCount == 0 && |cmdBuffer| > 1 {
        var prev := cmdBuffer[|cmdBuffer| - 2];
        if prev.header == cmdHeader && prev.End() == curr.idxOffset && prev.callback.None? {
          cmdBuffer := Init(cmdBuffer);
          return;
        }
      }
      cmdBuffer := Init(cmdBuffer) + [curr.(header := curr.header.(clip := cmdHeader.clip))];
    }

    /** The header's texture has changed since the last command was opened. */
    method OnChangedTexture(ghost before: Header)
      requires Ready(cmdBuffer, before, |idxBuffer|) && before.(tex := cmdHeader.tex) == cmdHeader
      modifies this`cmdBuffer
      ensures cmdBuffer == TextureChanged(old(cmdBuffer), cmdHeader, |idxBuffer|)
      ensures Ready(cmdBuffer, cmdHeader, |idxBuffer|)
      ensures InBounds(cmdBuffer, |idxBuffer|) && InBounds(old(cmdBuffer), |idxBuffer|)
      ensures Render(cmdBuffer, idxBuffer) == Render(old(cmdBuffer), idxBuffer)
    {
      TextureChangedKeepsRendering(cmdBuffer, before, cmdHeader, idxBuffer);
      var curr := Last(cmdBuffer);
      if curr.elemCount != 0 && curr.header.tex != cmdHeader.tex {
        AddDrawCmd();
        return;
      }
      if curr.callback.Some? {
        return;
      }
      if curr.elemCount == 0 && |cmdBuffer| > 1 {
        var prev := cmdBuffer[|cmdBuffer| - 2];
        if prev.header == cmdHeader && prev.End() == curr.idxOffset && prev.callback.None? {
          cmdBuffer := Init(cmdBuffer);
          return;
        }
      }
      cmdBuffer := Init(cmdBuffer) + [curr.(header := curr.header.(tex := cmdHeader.tex))];
    }

    /** The header's vertex base has changed since the last command was opened. */
    method OnChangedVtxOffset(ghost before: Header)
      requires Ready(cmdBuffer, before, |idxBuffer|) && before.(vtxOffset := cmdHeader.vtxOffset) == cmdHeader
      modifies this`cmdBuffer, this`vtxCurrentIdx
      ensures vtxCurrentIdx == 0
      ensures cmdBuffer == VtxOffsetChanged(old(cmdBuffer), cmdHeader, |idxBuffer|)
      ensures Ready(cmdBuffer, cmdHeader, |idxBuffer|)
      ensures InBounds(cmdBuffer, |idxBuffer|) && InBounds(old(cmdBuffer), |idxBuffer|)
      ensures Render(cmdBuffer, idxBuffer) == Render(old(cmdBuffer), idxBuffer)
    {
      VtxOffsetChangedKeepsRendering(cmdBuffer, before, cmdHeader, idxBuffer);
      vtxCurrentIdx := 0;
      var curr := Last(cmdBuffer);
      if curr.elemCount != 0 {
        AddDrawCmd();
        return;
      }
      cmdBuffer := Init(cmdBuffer) + [curr.(header := curr.header.(vtxOffset := cmdHeader.vtxOffset))];
    }

    method PushClipRect(lo: Vec2, hi: Vec2, intersect: bool)
      requires Valid() && Settled()
      modifies this`cmdBuffer, this`cmdHeader, this`clipRectStack
      ensures Valid() && Settled() && Trace() == old(Trace())
      ensures cmdHeader == old(cmdHeader).(clip := PushedClip(old(cmdHeader).clip, lo, hi, intersect))
      ensures clipRectStack == old(clipRectStack) + [cmdHeader.clip]
      ensures cmdBuffer == ClipChanged(old(cmdBuffer), cmdHeader, |idxBuffer|)
    {
      hide Render, Chained, PushedClip, ClipChanged;
      SettledTrace();
      ghost var before := cmdHeader;
      var cr := ClippedRect(cmdHeader.clip, lo, hi, intersect);
      clipRectStack := clipRectStack + [cr];
      cmdHeader := cmdHeader.(clip := cr);
      OnChangedClipRect(before);
      SettledTrace();
    }

    method PushClipRectFullScreen()
      requires Valid() && Settled()
      modifies this`cmdBuffer, this`cmdHeader, this`clipRectStack
      ensures Valid() && Settled() && Trace() == old(Trace())
      ensures var f := clipRectFullscreen;
              cmdHeader ==
                  old(cmdHeader).(clip := PushedClip(old(cmdHeader).clip, Vec2(f.x, f.y), Vec2(f.z, f.w), false))
      ensures clipRectStack == old(clipRectStack) + [cmdHeader.clip]
      ensures cmdBuffer == ClipChanged(old(cmdBuffer), cmdHeader, |idxBuffer|)
    {
      PushClipRect(Vec2(clipRectFullscreen.x, clipRectFullscreen.y), Vec2(clipRectFullscreen.z, clipRectFullscreen.w),
          false);
    }

    method PopClipRect()
      requires Valid() && Settled() && clipRectStack != []
      modifies this`cmdBuffer, this`cmdHeader, this`clipRectStack
      ensures Valid() && Settled() && Trace() == old(Trace())
      ensures clipRectStack == Init(old(clipRectStack))
      ensures cmdHeader ==
          old(cmdHeader).(clip := if clipRectStack == [] then clipRectFullscreen else Last(clipRectStack))
      ensures cmdBuffer == ClipChanged(old(cmdBuffer), cmdHeader, |idxBuffer|)
    {
      hide Render, Chained;
      SettledTrace();
      ghost var before := cmdHeader;
      clipRectStack := Init(clipRectStack);
      cmdHeader := cmdHeader.(clip := if |clipRectStack| == 0 then clipRectFullscreen else Last(clipRectStack));
      OnChangedClipRect(before);
      SettledTrace();
    }

    method PushTexture(tex: TextureRef)
      requires Valid() && Settled()
      modifies this`cmdBuffer, this`cmdHeader, this`textureStack
      ensures Valid() && Settled() && Trace() == old(Trace())
      ensures cmdHeader == old(cmdHeader).(tex := tex)
      ensures textureStack == old(textureStack) + [tex]
      ensures cmdBuffer == TextureChanged(old(cmdBuffer), cmdHeader, |idxBuffer|)
    {
      hide Render, Chained, TextureChanged;
      SettledTrace();
      ghost var before := cmdHeader;
      textureStack := textureStack + [tex];
      cmdHeader := cmdHeader.(tex := tex);
      OnChangedTexture(before);
      SettledTrace();
    }

    method PopTexture()
      requires Valid() && Settled() && textureStack != []
      modifies this`cmdBuffer, this`cmdHeader, this`textureStack
      ensures Valid() && Settled() && Trace() == old(Trace())
      ensures textureStack == Init(old(textureStack))
      ensures cmdHeader == old(cmdHeader).(tex := if textureStack == [] then TextureRef(0, 0) else Last(textureStack))
      ensures cmdBuffer == TextureChanged(old(cmdBuffer), cmdHeader, |idxBuffer|)
    {
      hide Render, Chained;
      SettledTrace();
      ghost var before := cmdHeader;
      textureStack := Init(textureStack);
      cmdHeader := cmdHeader.(tex := if |textureStack| == 0 then TextureRef(0, 0) else Last(textureStack));
      OnChangedTexture(before);
      SettledTrace();
    }

    /** Replaces the top of the texture stack. */
    method SetTexture(tex: TextureRef)
      requires Valid() && Settled() && (cmdHeader.tex != tex ==> textureStack != [])
      modifies this`cmdBuffer, this`cmdHeader, this`textureStack
      ensures Valid() && Settled() && Trace() == old(Trace())
      ensures cmdHeader == old(cmdHeader).(tex := tex)
      ensures textureStack == if old(cmdHeader).tex == tex then old(textureStack) else Init(old(textureStack)) + [tex]
      ensures cmdBuffer == if old(cmdHeader).tex == tex then old(cmdBuffer)
          else TextureChanged(old(cmdBuffer), cmdHeader, |idxBuffer|)
    {
      if cmdHeader.tex == tex {
        return;
      }
      hide Render, Chained, TextureChanged;
      SettledTrace();
      ghost var before := cmdHeader;
      cmdHeader := cmdHeader.(tex := tex);
      textureStack := Init(textureStack) + [tex];
      OnChangedTexture(before);
      SettledTrace();
    }

    ghost function Extents(): Extent
      reads this
    {
      Extent(cmdBuffer, cmdHeader, vtxCurrentIdx, |vtxBuffer|, |idxBuffer|)
    }

    /** A primitive was reserved in the open command, or in one of its own if it opens a window; no
        other command was opened or changed. */
    ghost predicate Reserved(e: Extent, idxCount: nat, vtxCount: nat)
      requires e.cmds != []
      reads this`cmdBuffer, this`cmdHeader, this`allowVtxOffset
    {
      var opens := OpensWindow(allowVtxOffset, e.base, vtxCount);
      && cmdHeader == HeaderAfterReserve(e.header, opens, e.vertices)
      && cmdBuffer == CmdsAfterReserve(e.cmds, e.header, opens, e.vertices, e.indices, idxCount)
    }

    /** So as long as the indices of the window suffice, only the open command gets longer; and when
        they do not, the next window starts at the primitive's own vertices. */
    lemma ReservedMeans(e: Extent, idxCount: nat, vtxCount: nat)
      requires e.cmds != [] && Reserved(e, idxCount, vtxCount)
      ensures !allowVtxOffset || e.base + vtxCount < 0x1_0000 ==>
                && cmdHeader == e.header
                && cmdBuffer == Init(e.cmds) + [Last(e.cmds).(elemCount := Last(e.cmds).elemCount + idxCount)]
      ensures allowVtxOffset && e.base + vtxCount >= 0x1_0000 ==>
                && cmdHeader == e.header.(vtxOffset := e.vertices)
                && |cmdBuffer| == |e.cmds| + (if Last(e.cmds).elemCount != 0 then 1 else 0)
    {
    }

    /** Resizes the buffers for a primitive and charges its indices to the open command. */
    method GrowBuffers(idxCount: nat, vtxCount: nat)
      requires Valid() && Settled()
      modifies this`cmdBuffer, this`idxBuffer, this`vtxBuffer, this`vtxWritePtr, this`idxWritePtr
      ensures Valid() && Trace() == old(Trace())
      ensures vtxWritePtr == |old(vtxBuffer)| && old(vtxBuffer) <= vtxBuffer
        && |vtxBuffer| == |old(vtxBuffer)| + vtxCount
      ensures idxWritePtr == |old(idxBuffer)| && old(idxBuffer) <= idxBuffer
        && |idxBuffer| == |old(idxBuffer)| + idxCount
      ensures cmdBuffer == Resized(old(cmdBuffer), idxCount)
    {
      hide Render, Chained;
      var curr := Last(cmdBuffer);
      cmdBuffer := Init(cmdBuffer) + [curr.(elemCount := curr.elemCount + idxCount)];

      var vtxOldSize := |vtxBuffer|;
      var vtxTail := Uninitialised(vtxCount);
      vtxBuffer := vtxBuffer + vtxTail;
      vtxWritePtr := vtxOldSize;

      var idxOldSize := |idxBuffer|;
      var idxTail: seq<Index> := Uninitialised(idxCount);
      idxBuffer := idxBuffer + idxTail;
      idxWritePtr := idxOldSize;
      assert cmdBuffer == Resized(old(cmdBuffer), idxCount);
      assert Last(cmdBuffer).header == cmdHeader;
      TraceReserve(old(cmdBuffer), old(idxBuffer), idxWritePtr, idxBuffer);
    }

    /** Starts a new 16-bit index window at the end of the vertex buffer. */
    method OpenVtxWindow()
      requires Valid() && Settled()
      modifies this`cmdBuffer, this`cmdHeader, this`vtxCurrentIdx
      ensures Valid() && Settled() && Trace() == old(Trace())
      ensures cmdHeader == old(cmdHeader).(vtxOffset := |vtxBuffer|) && vtxCurrentIdx == 0
      ensures cmdBuffer == VtxOffsetChanged(old(cmdBuffer), cmdHeader, |idxBuffer|)
    {
      SettledTrace();
      ghost var before := cmdHeader;
      cmdHeader := cmdHeader.(vtxOffset := |vtxBuffer|);
      OnChangedVtxOffset(before);
      SettledTrace();
    }

    /** Reserves room for a primitive, opening a new 16-bit window when the current one is full, and
        otherwise in the open command. */
    method PrimReserve(idxCount: nat, vtxCount: nat)
      requires Valid() && Settled()
      modifies this`cmdBuffer, this`cmdHeader, this`vtxCurrentIdx, this`idxBuffer, this`vtxBuffer, this`vtxWritePtr
      modifies this`idxWritePtr
      ensures Valid() && Trace() == old(Trace())
      ensures vtxCurrentIdx == BaseAfterReserve(allowVtxOffset, old(vtxCurrentIdx), vtxCount)
      ensures Reserved(old(Extents()), idxCount, vtxCount)
      ensures !allowVtxOffset || old(vtxCurrentIdx) + vtxCount < 0x1_0000 ==>
                && cmdHeader == old(cmdHeader) && vtxCurrentIdx == old(vtxCurrentIdx)
                && var open := Last(old(cmdBuffer));
                   cmdBuffer == Init(old(cmdBuffer)) + [open.(elemCount := open.elemCount + idxCount)]
      ensures allowVtxOffset && old(vtxCurrentIdx) + vtxCount >= 0x1_0000 ==>
                cmdHeader == old(cmdHeader).(vtxOffset := |old(vtxBuffer)|) && vtxCurrentIdx == 0
      ensures vtxWritePtr == |old(vtxBuffer)| && old(vtxBuffer) <= vtxBuffer
        && |vtxBuffer| == |old(vtxBuffer)| + vtxCount
      ensures idxWritePtr == |old(idxBuffer)| && old(idxBuffer) <= idxBuffer
        && |idxBuffer| == |old(idxBuffer)| + idxCount
    {
      hide Render, Chained;
      if vtxCurrentIdx + vtxCount >= 0x1_0000 && allowVtxOffset {
        OpenVtxWindow();
      }
      GrowBuffers(idxCount, vtxCount);
    }

    /** Gives back the tail of the last reservation. */
    method PrimUnreserve(idxCount: nat, vtxCount: nat)
      requires Valid() && idxWritePtr + idxCount <= |idxBuffer| && vtxWritePtr + vtxCount <= |vtxBuffer|
      modifies this`cmdBuffer, this`idxBuffer, this`vtxBuffer
      ensures Valid() && Trace() == old(Trace())
      ensures cmdBuffer == Init(old(cmdBuffer)) + [Last(old(cmdBuffer)).(elemCount := Last(cmdBuffer).elemCount)]
      ensures Last(cmdBuffer).elemCount == Last(old(cmdBuffer)).elemCount - idxCount
      ensures idxBuffer == old(idxBuffer)[..|old(idxBuffer)| - idxCount]
      ensures vtxBuffer == old(vtxBuffer)[..|old(vtxBuffer)| - vtxCount]
    {
      hide Render, Chained;
      var curr := Last(cmdBuffer);
      cmdBuffer := Init(cmdBuffer) + [curr.(elemCount := curr.elemCount - idxCount)];
      vtxBuffer := vtxBuffer[..|vtxBuffer| - vtxCount];
      idxBuffer := idxBuffer[..|idxBuffer| - idxCount];
      TraceReserve(old(cmdBuffer), old(idxBuffer), idxWritePtr, idxBuffer);
    }

    method PrimWriteIdx(i: Index)
      requires Valid() && idxWritePtr < |idxBuffer|
      modifies this`idxBuffer, this`idxWritePtr
      ensures Valid() && Trace() == old(Trace()) + Elems(cmdHeader, [i])
      ensures idxBuffer == old(idxBuffer)[old(idxWritePtr) := i] && idxWritePtr == old(idxWritePtr) + 1
    {
      hide Render, Chained;
      idxBuffer := idxBuffer[idxWritePtr := i];
      idxWritePtr := idxWritePtr + 1;
      TraceWrite(cmdBuffer, old(idxBuffer), old(idxWritePtr), [i], idxBuffer);
    }

    method PrimWriteVtx(pos: Vec2, uv: Vec2, col: nat)
      requires Valid() && vtxWritePtr < |vtxBuffer|
      modifies this`vtxBuffer, this`vtxWritePtr, this`vtxCurrentIdx
      ensures Valid() && Trace() == old(Trace())
      ensures vtxBuffer == old(vtxBuffer)[old(vtxWritePtr) := Vertex(pos, uv, col)]
      ensures vtxWritePtr == old(vtxWritePtr) + 1 && vtxCurrentIdx == old(vtxCurrentIdx) + 1
    {
      vtxBuffer := vtxBuffer[vtxWritePtr := Vertex(pos, uv, col)];
      vtxWritePtr := vtxWritePtr + 1;
      vtxCurrentIdx := vtxCurrentIdx + 1;
    }

    /** An axis-aligned rectangle as two triangles, written into the reservation. */
    method PrimRect(a: Vec2, c: Vec2, col: nat)
      requires Valid() && idxWritePtr + 6 <= |idxBuffer| && vtxWritePtr + 4 <= |vtxBuffer|
      modifies this`idxBuffer, this`idxWritePtr, this`vtxBuffer, this`vtxWritePtr, this`vtxCurrentIdx
      ensures Valid()
      ensures Trace() == old(Trace()) + Elems(cmdHeader, Rebased(old(vtxCurrentIdx), RECT_TRIS))
      ensures vtxBuffer == Splice(old(vtxBuffer), old(vtxWritePtr), RectVertices(a, c, texUvWhitePixel, col))
      ensures |idxBuffer| == |old(idxBuffer)|
      ensures vtxCurrentIdx == old(vtxCurrentIdx) + 4
      ensures idxWritePtr == old(idxWritePtr) + 6 && vtxWritePtr == old(vtxWritePtr) + 4
    {
      hide Render, Chained;
      var b, d, uv := Vec2(c.x, a.y), Vec2(a.x, c.y), texUvWhitePixel;
      var i: nat := ToIndex(vtxCurrentIdx);
      var indices := [i, ToIndex(i + 1), ToIndex(i + 2), i, ToIndex(i + 2), ToIndex(i + 3)];
      assert indices == Rebased(vtxCurrentIdx, RECT_TRIS);
      idxBuffer := Splice(idxBuffer, idxWritePtr, indices);
      vtxBuffer :=
          Splice(vtxBuffer, vtxWritePtr,
          [Vertex(a, uv, col), Vertex(b, uv, col), Vertex(c, uv, col), Vertex(d, uv, col)]);
      vtxWritePtr := vtxWritePtr + 4;
      vtxCurrentIdx := vtxCurrentIdx + 4;
      idxWritePtr := idxWritePtr + 6;
      TraceWrite(cmdBuffer, old(idxBuffer), old(idxWritePtr), indices, idxBuffer);
    }

    /** Fills the index reservation with triangles counted from vertex `base`. */
    method WriteIndices(base: nat, tris: seq<nat>)
      requires Valid() && idxWritePtr + |tris| == |idxBuffer|
      modifies this`idxBuffer, this`idxWritePtr
      ensures Valid() && idxWritePtr == |idxBuffer| == |old(idxBuffer)|
      ensures Trace() == old(Trace()) + Elems(cmdHeader, Rebased(base, tris))
    {
      hide Render, Chained;
      ghost var trace, start := Trace(), idxWritePtr;
      for k := 0 to |tris|
        invariant Valid() && idxWritePtr == start + k && |idxBuffer| == start + |tris|
        invariant Trace() == trace + Elems(cmdHeader, Rebased(base, tris[..k]))
      {
        ghost var more, i := Rebased(base, tris[..k]), ToIndex(base + tris[k]);
        PrimWriteIdx(ToIndex(base + tris[k]));
        assert Rebased(base, tris[..k + 1]) == more + [i];
        ElemsConcat(cmdHeader, more, [i]);
        AppendAssoc(trace, Elems(cmdHeader, more), Elems(cmdHeader, [i]));
      }
      assert tris[..|tris|] == tris;
    }

    /** Fills the vertex reservation. */
    method WriteVertices(vs: seq<Vertex>)
      requires Valid() && vtxWritePtr + |vs| == |vtxBuffer|
      modifies this`vtxBuffer, this`vtxWritePtr, this`vtxCurrentIdx
      ensures Valid() && Trace() == old(Trace())
      ensures vtxBuffer == old(vtxBuffer)[..old(vtxWritePtr)] + vs && vtxWritePtr == |vtxBuffer|
      ensures vtxCurrentIdx == old(vtxCurrentIdx) + |vs|
    {
      hide Render, Chained;
      ghost var trace, first := Trace(), vtxWritePtr;
      for k := 0 to |vs|
        invariant Valid() && Trace() == trace
        invariant vtxCurrentIdx == old(vtxCurrentIdx) + k && vtxWritePtr == first + k
        invariant |vtxBuffer| == first + |vs| && vtxBuffer[..vtxWritePtr] == old(vtxBuffer)[..first] + vs[..k]
      {
        PrimWriteVtx(vs[k].pos, vs[k].uv, vs[k].col);
      }
      assert vtxBuffer[..vtxWritePtr] == vtxBuffer && vs[..|vs|] == vs;
    }

    /** A whole primitive through the low-level interface: reserve, write indices counted from
        the current vertex, write vertices. It draws its triangles over its own vertices
        exactly when none of its indices wraps at 16 bits. */
    method AddMesh(vs: seq<Vertex>, tris: seq<nat>)
      requires Valid() && Settled()
      modifies this`cmdBuffer, this`cmdHeader, this`vtxCurrentIdx, this`idxBuffer, this`vtxBuffer, this`vtxWritePtr
      modifies this`idxWritePtr
      ensures Valid() && Settled()
      ensures Reserved(old(Extents()), |tris|, |vs|)
      ensures vtxBuffer == old(vtxBuffer) + vs
      ensures vtxCurrentIdx == BaseAfterReserve(allowVtxOffset, old(vtxCurrentIdx), |vs|) + |vs|
      ensures Trace() == old(Trace()) + MeshEvents(cmdHeader.clip, cmdHeader.tex, |old(vtxBuffer)|, tris) <==>
              Fits(BaseAfterReserve(allowVtxOffset, old(vtxCurrentIdx), |vs|), tris)
    {
      hide Render, Chained;
      ghost var trace, first := Trace(), |vtxBuffer|;
      PrimReserve(|tris|, |vs|);
      var base := vtxCurrentIdx;
      assert cmdHeader.vtxOffset + base == first && vtxBuffer[..first] == old(vtxBuffer);
      WriteIndices(base, tris);
      WriteVertices(vs);
      IndicesResolve(cmdHeader, base, tris);
      AppendCancel(trace, Elems(cmdHeader, Rebased(base, tris)),
          MeshEvents(cmdHeader.clip, cmdHeader.tex, first, tris));
    }

    /** Writes one vertex per point, without counting it. */
    method FillVertices(points: seq<Vec2>, col: nat)
      requires vtxWritePtr + |points| == |vtxBuffer|
      modifies this`vtxBuffer, this`vtxWritePtr
      ensures vtxWritePtr == |vtxBuffer|
      ensures vtxBuffer == old(vtxBuffer)[..old(vtxWritePtr)] + FlatVertices(points, texUvWhitePixel, col)
    {
      ghost var first := vtxWritePtr;
      for i := 0 to |points|
        invariant |vtxBuffer| == first + |points| && vtxWritePtr == first + i
        invariant vtxBuffer[..first] == old(vtxBuffer)[..first]
        invariant forall k :: 0 <= k < i ==> vtxBuffer[first + k] == Vertex(points[k], texUvWhitePixel, col)
      {
        vtxBuffer := vtxBuffer[vtxWritePtr := Vertex(points[i], texUvWhitePixel, col)];
        vtxWritePtr := vtxWritePtr + 1;
      }
    }

    /** Writes the indices of a fan over `n` points from the current vertex. */
    method FillFan(n: nat)
      requires n >= 3 && Covers(cmdBuffer, |idxBuffer|, idxWritePtr) && idxWritePtr + (n - 2) * 3 == |idxBuffer|
      modifies this`idxBuffer, this`idxWritePtr
      ensures Covers(cmdBuffer, |idxBuffer|, idxWritePtr) && idxWritePtr == |idxBuffer| == |old(idxBuffer)|
      ensures TraceOf(cmdBuffer, idxBuffer, idxWritePtr) ==
              old(TraceOf(cmdBuffer, idxBuffer, idxWritePtr))
                  + Elems(Last(cmdBuffer).header, Rebased(vtxCurrentIdx, FanTris(n)))
    {
      hide Render, Chained, TraceOf, Elems, Rebased, FanTris, ToIndex;
      ghost var trace, start, h := TraceOf(cmdBuffer, idxBuffer, idxWritePtr), idxWritePtr, Last(cmdBuffer).header;
      NoElems(h);
      NoFan(vtxCurrentIdx);
      for i := 2 to n
        invariant |idxBuffer| == start + (n - 2) * 3 && idxWritePtr == start + (i - 2) * 3
        invariant Covers(cmdBuffer, |idxBuffer|, idxWritePtr)
        invariant TraceOf(cmdBuffer, idxBuffer, idxWritePtr) == trace + Elems(h, Rebased(vtxCurrentIdx, FanTris(i)))
      {
        var tri := [ToIndex(vtxCurrentIdx), ToIndex(vtxCurrentIdx + i - 1), ToIndex(vtxCurrentIdx + i)];
        ghost var was, more := idxBuffer, Rebased(vtxCurrentIdx, FanTris(i));
        idxBuffer := Splice(idxBuffer, idxWritePtr, tri);
        TraceWrite(cmdBuffer, was, idxWritePtr, tri, idxBuffer);
        idxWritePtr := idxWritePtr + 3;
        FanMore(vtxCurrentIdx, i);
        ElemsConcat(h, more, tri);
        AppendAssoc(trace, Elems(h, more), Elems(h, tri));
      }
    }

    /** Fills a convex polygon without anti-aliasing. The vertex counter is advanced by the
        count cast to 16 bits, so it stays in step with the vertex buffer exactly for polygons
        of fewer than 65536 points. */
    method AddConvexPolyFilled(points: seq<Vec2>, col: nat)
      requires Valid() && Settled()
      modifies this`cmdBuffer, this`cmdHeader, this`vtxCurrentIdx, this`idxBuffer, this`vtxBuffer, this`vtxWritePtr
      modifies this`idxWritePtr
      ensures |points| < 3 || Transparent(col) ==> Valid() && vtxBuffer == old(vtxBuffer) && Trace() == old(Trace())
      ensures |points| >= 3 && !Transparent(col) ==>
                && Settled()
                && Covers(cmdBuffer, |idxBuffer|, idxWritePtr) && Last(cmdBuffer).header == cmdHeader
                && Reserved(old(Extents()), (|points| - 2) * 3, |points|)
                && vtxBuffer == old(vtxBuffer) + FlatVertices(points, texUvWhitePixel, col)
                && (Valid() <==> |points| < INDEX_RANGE)
                && (TraceOf(cmdBuffer, idxBuffer, idxWritePtr) ==
                    old(Trace()) + MeshEvents(cmdHeader.clip, cmdHeader.tex, |old(vtxBuffer)|, FanTris(|points|)) <==>
                    Fits(BaseAfterReserve(allowVtxOffset, old(vtxCurrentIdx), |points|), FanTris(|points|)))
    {
      hide Render, Chained, TraceOf, Elems, Rebased, MeshEvents, Fits, Reserved;
      if |points| < 3 || Transparent(col) {
        return;
      }
      ghost var trace, first, tris := Trace(), |vtxBuffer|, FanTris(|points|);
      PrimReserve((|points| - 2) * 3, |points|);
      ghost var base, h := vtxCurrentIdx, cmdHeader;
      assert h.vtxOffset + base == first && vtxBuffer[..first] == old(vtxBuffer);
      FillVertices(points, col);
      FillFan(|points|);
      vtxCurrentIdx := vtxCurrentIdx + ToIndex(|points|);
      IndicesResolve(h, base, tris);
      AppendCancel(trace, Elems(h, Rebased(base, tris)), MeshEvents(h.clip, h.tex, first, tris));
    }
  }

  /** A command that was opened by hand, and is lost when a rectangle is pushed and popped again. */
  method OpenByHand(fullscreen: Rect) returns (dl: DrawList)
    requires fullscreen.x < fullscreen.z && fullscreen.y < fullscreen.w
    ensures fresh(dl) && dl.Valid() && dl.Settled() && dl.clipRectFullscreen == fullscreen
      && dl.clipRectStack == [fullscreen]
    ensures dl.idxBuffer == [] && dl.cmdHeader.clip == fullscreen
    ensures dl.cmdBuffer == [NewCmd(dl.cmdHeader, 0), NewCmd(dl.cmdHeader, 0)]
  {
    hide Render, Chained, TraceOf, Covers, ClipChanged, PushedClip;
    dl := new DrawList(false, fullscreen, Vec2(0.0, 0.0));
    FreshChange(dl.cmdHeader, dl.cmdHeader.(clip := fullscreen));
    PlainClip(dl.cmdHeader.clip, Vec2(fullscreen.x, fullscreen.y), Vec2(fullscreen.z, fullscreen.w));
    dl.PushClipRect(Vec2(fullscreen.x, fullscreen.y), Vec2(fullscreen.z, fullscreen.w), false);
    dl.AddDrawCmd();
  }

  /** On such a list, pushing any other rectangle and popping it leaves one command of the two. */
  method PopLosesCommand(dl: DrawList, lo: Vec2, hi: Vec2) returns (ghost pushed: Header)
    requires dl.Valid() && dl.Settled() && dl.clipRectStack != [] && dl.idxBuffer == []
    requires dl.cmdHeader.clip == Last(dl.clipRectStack)
      && dl.cmdBuffer == [NewCmd(dl.cmdHeader, 0), NewCmd(dl.cmdHeader, 0)]
    requires lo.x < hi.x && lo.y < hi.y && Rect(lo.x, lo.y, hi.x, hi.y) != dl.cmdHeader.clip
    modifies dl
    ensures pushed == old(dl.cmdHeader).(clip := Rect(lo.x, lo.y, hi.x, hi.y))
    ensures dl.cmdBuffer == ClipChanged(ClipChanged(old(dl.cmdBuffer), pushed, 0), old(dl.cmdHeader), 0) ==
        [old(dl.cmdBuffer)[0]]
    ensures dl.Valid() && dl.cmdHeader == old(dl.cmdHeader) && dl.clipRectStack == old(dl.clipRectStack)
  {
    hide Render, Chained, TraceOf, Covers, ClipChanged, PushedClip;
    ghost var h := dl.cmdHeader;
    pushed := h.(clip := Rect(lo.x, lo.y, hi.x, hi.y));
    PairChange(h, pushed);
    PlainClip(h.clip, lo, hi);
    dl.PushClipRect(lo, hi, false);
    assert Init(dl.clipRectStack) == old(dl.clipRectStack);
    dl.PopClipRect();
  }

  lemma PlainClip(current: Rect, lo: Vec2, hi: Vec2)
    requires lo.x < hi.x && lo.y < hi.y
    ensures PushedClip(current, lo, hi, false) == Rect(lo.x, lo.y, hi.x, hi.y)
  {
  }

  /** A single unused command is rewritten. */
  lemma FreshChange(h0: Header, h: Header)
    requires h0.(clip := h.clip) == h
    ensures ClipChanged([NewCmd(h0, 0)], h, 0) == [NewCmd(h, 0)]
  {
  }

  /** Of two unused commands the second is rewritten, and dropped when it agrees with the first again. */
  lemma PairChange(h0: Header, h: Header)
    requires h0.(clip := h.clip) == h && h != h0
    ensures ClipChanged([NewCmd(h0, 0), NewCmd(h0, 0)], h, 0) == [NewCmd(h0, 0), NewCmd(h, 0)]
    ensures ClipChanged([NewCmd(h0, 0), NewCmd(h, 0)], h0, 0) == [NewCmd(h0, 0)]
  {
    assert Init([NewCmd(h0, 0), NewCmd(h0, 0)]) == [NewCmd(h0, 0)]
      && Init([NewCmd(h0, 0), NewCmd(h, 0)]) == [NewCmd(h0, 0)];
  }

  /** A fill of 65536 points leaves the vertex counter out of step with the vertex buffer. */
  method LargeFillOutOfStep() returns (dl: DrawList)
    ensures fresh(dl) && !dl.Valid() && |dl.vtxBuffer| == INDEX_RANGE
  {
    hide Render, Chained, TraceOf, Fits, FanTris;
    dl := new DrawList(true, Rect(0.0, 0.0, 1.0, 1.0), Vec2(0.0, 0.0));
    dl.AddConvexPolyFilled(seq(INDEX_RANGE, i => Vec2(i as real, i as real * i as real)), 0xFF00_0000);
  }
}
