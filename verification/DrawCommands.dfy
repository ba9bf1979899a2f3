/** Draw commands, what a renderer backend makes of them, and the pure form of the
    rules by which a draw list opens, rewrites, drops and merges commands. */
module DrawCommands {
  import opened Options

  datatype Vec2 = Vec2(x: real, y: real)

  datatype Rect = Rect(x: real, y: real, z: real, w: real)

  /** A texture reference: `_TexData` (0 is NULL) and `_TexID` (0 is invalid). */
  datatype TextureRef = TextureRef(data: nat, id: nat)

  datatype Vertex = Vertex(pos: Vec2, uv: Vec2, col: nat)

  const INDEX_RANGE: nat := 0x1_0000

  /** ImDrawIdx in its default configuration: an unsigned 16-bit integer. */
  type Index = n: nat | n < 0x1_0000

  type Byte = n: nat | n < 0x100

  /** The cast `(ImDrawIdx)n`. */
  function ToIndex(n: nat): Index { n % INDEX_RANGE }

  /** Callback arguments: a pointer kept as it is, or a range of the list's byte buffer. */
  datatype UserData = Direct(pointer: nat) | Stored(offset: nat, size: nat)

  datatype Callback = Callback(fn: nat, data: UserData)

  datatype Header = Header(clip: Rect, tex: TextureRef, vtxOffset: nat)

  datatype DrawCmd = DrawCmd(header: Header, idxOffset: nat, elemCount: nat, callback: Option<Callback>) {
    function End(): nat { idxOffset + elemCount }
  }

  /** What a backend does, one step per rendered index or callback. */
  datatype Event =
    | Elem(clip: Rect, tex: TextureRef, vertex: nat)
    | Call(callback: Callback)

  function Last<T>(s: seq<T>): T
    requires s != []
  { s[|s| - 1] }

  function Init<T>(s: seq<T>): seq<T>
    requires s != []
  { s[..|s| - 1] }

  // ---------------------------------------------------------------- rendering

  ghost predicate InBounds(cmds: seq<DrawCmd>, total: nat) {
    forall c :: c in cmds ==> c.End() <= total
  }

  /** The vertices a run of indices selects under a command header. */
  function Elems(h: Header, indices: seq<Index>): seq<Event> {
    seq(|indices|, (k: nat) requires k < |indices| => Elem(h.clip, h.tex, h.vtxOffset + indices[k]))
  }

  /** One command: a callback replaces drawing, otherwise its index range is drawn. */
  function RenderCmd(c: DrawCmd, idx: seq<Index>): seq<Event>
    requires c.End() <= |idx|
  {
    if c.callback.Some? then [Call(c.callback.value)]
    else Elems(c.header, idx[c.idxOffset..c.End()])
  }

  /** A whole command buffer, commands in order. */
  function Render(cmds: seq<DrawCmd>, idx: seq<Index>): seq<Event>
    requires InBounds(cmds, |idx|)
  {
    if cmds == [] then [] else Render(Init(cmds), idx) + RenderCmd(Last(cmds), idx)
  }

  /** The index ranges of the commands follow each other from 0 and use up `total` indices. */
  ghost predicate Chained(cmds: seq<DrawCmd>, total: nat) {
    if cmds == [] then total == 0
    else
      && Last(cmds).End() == total
      && (Last(cmds).callback.Some? ==> Last(cmds).elemCount == 0)
      && Chained(Init(cmds), Last(cmds).idxOffset)
  }

  lemma {:induction false} ChainedInBounds(cmds: seq<DrawCmd>, total: nat)
    requires Chained(cmds, total)
    ensures InBounds(cmds, total)
  {
    if cmds != [] {
      ChainedInBounds(Init(cmds), Last(cmds).idxOffset);
      assert cmds == Init(cmds) + [Last(cmds)];
    }
  }

  /** Chained, spelled out: each range starts where the one before ended, the first at 0
      and the last ending at the size of the index buffer. */
  lemma {:induction false} ChainedRanges(cmds: seq<DrawCmd>, total: nat)
    requires Chained(cmds, total) && cmds != []
    ensures cmds[0].idxOffset == 0 && Last(cmds).End() == total
    ensures forall i :: 0 < i < |cmds| ==> cmds[i].idxOffset == cmds[i - 1].End()
  {
    if |cmds| > 1 {
      ChainedRanges(Init(cmds), Last(cmds).idxOffset);
      forall i | 0 < i < |cmds| ensures cmds[i].idxOffset == cmds[i - 1].End() {
        if i < |cmds| - 1 { assert Init(cmds)[i].idxOffset == Init(cmds)[i - 1].End(); }
      }
    }
  }

  /** Indices appended later do not change what was already rendered. */
  lemma {:induction false} RenderPrefix(cmds: seq<DrawCmd>, idx: seq<Index>, longer: seq<Index>)
    requires idx <= longer && InBounds(cmds, |idx|)
    ensures InBounds(cmds, |longer|) && Render(cmds, idx) == Render(cmds, longer)
  {
    if cmds != [] {
      RenderPrefix(Init(cmds), idx, longer);
      var c := Last(cmds);
      assert c in cmds;
      assert idx[c.idxOffset..c.End()] == longer[c.idxOffset..c.End()];
    }
  }

  lemma RenderSnoc(cmds: seq<DrawCmd>, c: DrawCmd, idx: seq<Index>)
    requires InBounds(cmds, |idx|) && c.End() <= |idx|
    ensures InBounds(cmds + [c], |idx|)
    ensures Render(cmds + [c], idx) == Render(cmds, idx) + RenderCmd(c, idx)
  {
    assert Init(cmds + [c]) == cmds;
  }

  /** Chained buffers and the trace they render. */
  ghost predicate Renders(cmds: seq<DrawCmd>, idx: seq<Index>, trace: seq<Event>) {
    Chained(cmds, |idx|) && InBounds(cmds, |idx|) && Render(cmds, idx) == trace
  }

  /** The trace of buffers that end in command `c` is that of the buffers before `c`, plus `c`. */
  lemma RendersStep(front: seq<DrawCmd>, c: DrawCmd, idx: seq<Index>, trace: seq<Event>)
    requires c.End() == |idx| && (c.callback.Some? ==> c.elemCount == 0)
    ensures Renders(front + [c], idx, trace) <==>
            exists t :: Renders(front, idx[..c.idxOffset], t) && trace == t + RenderCmd(c, idx)
  {
    assert Init(front + [c]) == front;
    if Chained(front, c.idxOffset) {
      ChainedInBounds(front, c.idxOffset);
      ChainedInBounds(front + [c], |idx|);
      RenderPrefix(front, idx[..c.idxOffset], idx);
      RenderSnoc(front, c, idx);
      assert Renders(front, idx[..c.idxOffset], Render(front, idx));
    }
  }

  lemma InBoundsConcat(a: seq<DrawCmd>, b: seq<DrawCmd>, total: nat)
    ensures InBounds(a + b, total) <==> InBounds(a, total) && InBounds(b, total)
  {
    assert forall c :: c in a + b <==> c in a || c in b;
  }

  lemma {:induction false} RenderConcat(a: seq<DrawCmd>, b: seq<DrawCmd>, idx: seq<Index>)
    requires InBounds(a, |idx|) && InBounds(b, |idx|)
    ensures InBounds(a + b, |idx|) && Render(a + b, idx) == Render(a, idx) + Render(b, idx)
  {
    InBoundsConcat(a, b, |idx|);
    if b == [] {
      assert a + b == a;
    } else {
      hide Render;
      var front, c := Init(b), Last(b);
      assert b == front + [c];
      InBoundsConcat(front, [c], |idx|);
      InBoundsConcat(a, front, |idx|);
      assert c in b;
      RenderConcat(a, front, idx);
      RenderSnoc(front, c, idx);
      RenderSnoc(a + front, c, idx);
      AppendAssoc(a, front, [c]);
      AppendAssoc(Render(a, idx), Render(front, idx), RenderCmd(c, idx));
    }
  }

  lemma AppendAssoc<T>(a: seq<T>, b: seq<T>, c: seq<T>)
    ensures (a + b) + c == a + (b + c)
  {
  }

  lemma NoElems(h: Header)
    ensures Elems(h, []) == []
  {
  }

  lemma ElemsConcat(h: Header, a: seq<Index>, b: seq<Index>)
    ensures Elems(h, a + b) == Elems(h, a) + Elems(h, b)
  {
  }

  /** Extending the last, non-callback command over freshly appended indices. */
  lemma RendersGrow(front: seq<DrawCmd>, c: DrawCmd, idx: seq<Index>, more: seq<Index>, trace: seq<Event>)
    requires c.callback.None? && c.End() == |idx| && Renders(front + [c], idx, trace)
    ensures Renders(front + [c.(elemCount := c.elemCount + |more|)], idx + more, trace + Elems(c.header, more))
  {
    hide Renders, Elems;
    var d := c.(elemCount := c.elemCount + |more|);
    RendersStep(front, c, idx, trace);
    var t :| Renders(front, idx[..c.idxOffset], t) && trace == t + RenderCmd(c, idx);
    var tail := idx[c.idxOffset..];
    assert idx[c.idxOffset..c.End()] == tail && (idx + more)[d.idxOffset..d.End()] == tail + more;
    assert (idx + more)[..d.idxOffset] == idx[..c.idxOffset];
    ElemsConcat(c.header, tail, more);
    AppendAssoc(t, Elems(c.header, tail), Elems(c.header, more));
    RendersStep(front, d, idx + more, trace + Elems(c.header, more));
  }

  lemma RenderGrow(front: seq<DrawCmd>, c: DrawCmd, idx: seq<Index>, more: seq<Index>)
    requires Chained(front + [c], |idx|) && c.callback.None?
    ensures Chained(front + [c.(elemCount := c.elemCount + |more|)], |idx + more|)
    ensures InBounds(front + [c], |idx|)
    ensures InBounds(front + [c.(elemCount := c.elemCount + |more|)], |idx + more|)
    ensures Render(front + [c.(elemCount := c.elemCount + |more|)], idx + more) ==
            Render(front + [c], idx) + Elems(c.header, more)
  {
    ChainedInBounds(front + [c], |idx|);
    assert Last(front + [c]) == c;
    RendersGrow(front, c, idx, more, Render(front + [c], idx));
  }

  /** Joining two adjacent draw commands with equal headers. */
  lemma RenderJoin(front: seq<DrawCmd>, p: DrawCmd, c: DrawCmd, idx: seq<Index>)
    requires Chained(front + [p, c], |idx|)
    requires p.header == c.header && p.callback.None? && c.callback.None?
    ensures p.End() == c.idxOffset
    ensures Chained(front + [p.(elemCount := p.elemCount + c.elemCount)], |idx|)
    ensures InBounds(front + [p, c], |idx|)
    ensures InBounds(front + [p.(elemCount := p.elemCount + c.elemCount)], |idx|)
    ensures Render(front + [p.(elemCount := p.elemCount + c.elemCount)], idx) == Render(front + [p, c], idx)
  {
    assert front + [p, c] == (front + [p]) + [c];
    assert Init(front + [p, c]) == front + [p];
    assert Init(front + [p]) == front;
    assert c.End() == |idx| && Chained(front + [p], c.idxOffset);
    var head, tail := idx[..c.idxOffset], idx[c.idxOffset..];
    assert idx == head + tail;
    RenderGrow(front, p, head, tail);
    JoinedTail(front + [p], c, idx);
  }

  lemma InBoundsSnoc(cmds: seq<DrawCmd>, c: DrawCmd, total: nat)
    ensures InBounds(cmds + [c], total) <==> InBounds(cmds, total) && c.End() <= total
  {
    InBoundsConcat(cmds, [c], total);
    assert c in [c];
  }

  /** The same wherever the two commands' indices lie, as long as they lie side by side. */
  lemma JoinKeeps(front: seq<DrawCmd>, p: DrawCmd, c: DrawCmd, idx: seq<Index>)
    requires InBounds(front + [p, c], |idx|) && p.End() == c.idxOffset
    requires p.header == c.header && p.callback.None? && c.callback.None?
    ensures InBounds(front + [p.(elemCount := p.elemCount + c.elemCount)], |idx|)
    ensures Render(front + [p.(elemCount := p.elemCount + c.elemCount)], idx) == Render(front + [p, c], idx)
  {
    hide Render, InBounds, Elems;
    var j := p.(elemCount := p.elemCount + c.elemCount);
    assert front + [p, c] == (front + [p]) + [c];
    InBoundsSnoc(front + [p], c, |idx|);
    InBoundsSnoc(front, p, |idx|);
    RenderSnoc(front, p, idx);
    RenderSnoc(front + [p], c, idx);
    RenderSnoc(front, j, idx);
    assert idx[j.idxOffset..j.End()] == idx[p.idxOffset..p.End()] + idx[c.idxOffset..c.End()];
    ElemsConcat(p.header, idx[p.idxOffset..p.End()], idx[c.idxOffset..c.End()]);
    AppendAssoc(Render(front, idx), RenderCmd(p, idx), RenderCmd(c, idx));
  }

  lemma JoinedTail(cmds: seq<DrawCmd>, c: DrawCmd, idx: seq<Index>)
    requires Chained(cmds, c.idxOffset) && c.End() == |idx| && c.callback.None?
    ensures InBounds(cmds, c.idxOffset) && InBounds(cmds + [c], |idx|)
    ensures Render(cmds + [c], idx) == Render(cmds, idx[..c.idxOffset]) + Elems(c.header, idx[c.idxOffset..])
  {
    ChainedInBounds(cmds, c.idxOffset);
    RenderPrefix(cmds, idx[..c.idxOffset], idx);
    RenderSnoc(cmds, c, idx);
    assert idx[c.idxOffset..c.End()] == idx[c.idxOffset..];
  }

  // ------------------------------------------------- the lazy command rules

  /** The command AddDrawCmd appends. */
  function NewCmd(h: Header, total: nat): DrawCmd {
    DrawCmd(h, total, 0, None)
  }

  /** The last command is unused and the one before it can take over under header `h`. */
  predicate DropsLast(cmds: seq<DrawCmd>, h: Header)
    requires cmds != []
  {
    && Last(cmds).elemCount == 0
    && |cmds| > 1
    && cmds[|cmds| - 2].header == h
    && cmds[|cmds| - 2].End() == Last(cmds).idxOffset
    && cmds[|cmds| - 2].callback.None?
  }

  /** The command buffer after the current clip rectangle became `h.clip`. */
  function ClipChanged(cmds: seq<DrawCmd>, h: Header, total: nat): seq<DrawCmd>
    requires cmds != []
  {
    var curr := Last(cmds);
    if curr.elemCount != 0 && curr.header.clip != h.clip then cmds + [NewCmd(h, total)]
    else if DropsLast(cmds, h) then Init(cmds)
    else Init(cmds) + [curr.(header := curr.header.(clip := h.clip))]
  }

  /** The command buffer after the current texture became `h.tex`. */
  function TextureChanged(cmds: seq<DrawCmd>, h: Header, total: nat): seq<DrawCmd>
    requires cmds != []
  {
    var curr := Last(cmds);
    if curr.elemCount != 0 && curr.header.tex != h.tex then cmds + [NewCmd(h, total)]
    else if curr.callback.Some? then cmds
    else if DropsLast(cmds, h) then Init(cmds)
    else Init(cmds) + [curr.(header := curr.header.(tex := h.tex))]
  }

  /** The command buffer after the vertex base became `h.vtxOffset`. */
  function VtxOffsetChanged(cmds: seq<DrawCmd>, h: Header, total: nat): seq<DrawCmd>
    requires cmds != []
  {
    var curr := Last(cmds);
    if curr.elemCount != 0 then cmds + [NewCmd(h, total)]
    else Init(cmds) + [curr.(header := curr.header.(vtxOffset := h.vtxOffset))]
  }

  /** The command buffer once its last command is made to carry header `h`,
      as done after a channel switch and after a merge. */
  function HeaderChanged(cmds: seq<DrawCmd>, h: Header, total: nat): seq<DrawCmd> {
    if cmds == [] then [NewCmd(h, total)]
    else if Last(cmds).elemCount == 0 then Init(cmds) + [Last(cmds).(header := h)]
    else if Last(cmds).header != h then cmds + [NewCmd(h, total)]
    else cmds
  }

  /** The command buffer after callback `cb` was queued under header `h`. */
  function CallbackAdded(cmds: seq<DrawCmd>, h: Header, total: nat, cb: Callback): seq<DrawCmd>
    requires cmds != []
  {
    var open := if Last(cmds).elemCount != 0 then cmds + [NewCmd(h, total)] else cmds;
    Init(open) + [Last(open).(callback := Some(cb)), NewCmd(h, total)]
  }

  /** However the header changes, a last command that draws something stays as it is, and one that is
      unused gives way: however often the header changes before anything is drawn, it opens one
      command at most; and a callback takes the place of an unused one. */
  lemma LastGivesWay(cmds: seq<DrawCmd>, h: Header, total: nat, cb: Callback)
    requires cmds != []
    ensures |CallbackAdded(cmds, h, total, cb)| == |cmds| + if Last(cmds).elemCount != 0 then 2 else 1
    ensures Last(cmds).elemCount != 0 ==>
              && cmds <= ClipChanged(cmds, h, total) && cmds <= TextureChanged(cmds, h, total)
              && cmds <= VtxOffsetChanged(cmds, h, total) && cmds <= HeaderChanged(cmds, h, total)
    ensures Last(cmds).elemCount == 0 ==>
              && |ClipChanged(cmds, h, total)| <= |cmds| && |TextureChanged(cmds, h, total)| <= |cmds|
              && |VtxOffsetChanged(cmds, h, total)| <= |cmds| && |HeaderChanged(cmds, h, total)| <= |cmds|
    ensures Last(cmds).header == h && Last(cmds).callback.None? ==>
              HeaderChanged(cmds, h, total) == cmds
    ensures Last(cmds).elemCount != 0 && Last(cmds).header == h && Last(cmds).callback.None? ==>
              ClipChanged(cmds, h, total) == cmds == TextureChanged(cmds, h, total)
  {
  }

  /** A buffer ready to take primitives under header `h`. */
  ghost predicate Ready(cmds: seq<DrawCmd>, h: Header, total: nat) {
    && cmds != []
    && Chained(cmds, total)
    && Last(cmds).callback.None?
    && Last(cmds).header == h
  }

  lemma ChainedSnoc(cmds: seq<DrawCmd>, c: DrawCmd, total: nat)
    requires Chained(cmds, total) && c.idxOffset == total
    requires c.callback.Some? ==> c.elemCount == 0
    ensures Chained(cmds + [c], c.End())
  {
    assert Init(cmds + [c]) == cmds;
  }

  /** Appending an empty command, or dropping or rewriting the header of an empty last one,
      leaves the rendering as it was. */
  lemma AddEmptyCmd(cmds: seq<DrawCmd>, h: Header, idx: seq<Index>)
    requires Chained(cmds, |idx|)
    ensures Ready(cmds + [NewCmd(h, |idx|)], h, |idx|)
    ensures InBounds(cmds, |idx|) && InBounds(cmds + [NewCmd(h, |idx|)], |idx|)
    ensures Render(cmds + [NewCmd(h, |idx|)], idx) == Render(cmds, idx)
  {
    ChainedSnoc(cmds, NewCmd(h, |idx|), |idx|);
    ChainedInBounds(cmds, |idx|);
    RenderSnoc(cmds, NewCmd(h, |idx|), idx);
  }

  lemma DropEmptyCmd(cmds: seq<DrawCmd>, idx: seq<Index>)
    requires cmds != [] && Chained(cmds, |idx|)
    requires Last(cmds).elemCount == 0 && Last(cmds).callback.None?
    ensures Chained(Init(cmds), |idx|)
    ensures InBounds(cmds, |idx|) && InBounds(Init(cmds), |idx|)
    ensures Render(Init(cmds), idx) == Render(cmds, idx)
  {
    ChainedInBounds(cmds, |idx|);
    ChainedInBounds(Init(cmds), |idx|);
  }

  lemma RewriteEmptyCmd(cmds: seq<DrawCmd>, h: Header, idx: seq<Index>)
    requires cmds != [] && Chained(cmds, |idx|)
    requires Last(cmds).elemCount == 0 && Last(cmds).callback.None?
    ensures Ready(Init(cmds) + [Last(cmds).(header := h)], h, |idx|)
    ensures InBounds(cmds, |idx|) && InBounds(Init(cmds) + [Last(cmds).(header := h)], |idx|)
    ensures Render(Init(cmds) + [Last(cmds).(header := h)], idx) == Render(cmds, idx)
  {
    var c := Last(cmds).(header := h);
    DropEmptyCmd(cmds, idx);
    ChainedSnoc(Init(cmds), c, |idx|);
    RenderSnoc(Init(cmds), c, idx);
  }

  /** Every rule yields a buffer that is ready under the new header and renders as before. */
  lemma ClipChangedKeepsRendering(cmds: seq<DrawCmd>, h0: Header, h: Header, idx: seq<Index>)
    requires Ready(cmds, h0, |idx|) && h0.(clip := h.clip) == h
    ensures Ready(ClipChanged(cmds, h, |idx|), h, |idx|)
    ensures InBounds(cmds, |idx|) && InBounds(ClipChanged(cmds, h, |idx|), |idx|)
    ensures Render(ClipChanged(cmds, h, |idx|), idx) == Render(cmds, idx)
  {
    HeaderChangeKeepsRendering(cmds, h, idx);
    ClipChangedCases(cmds, h0, h, |idx|);
  }

  lemma ClipChangedCases(cmds: seq<DrawCmd>, h0: Header, h: Header, total: nat)
    requires Ready(cmds, h0, total) && h0.(clip := h.clip) == h
    ensures ClipChanged(cmds, h, total) ==
            if DropsLast(cmds, h) then Init(cmds) else HeaderChanged(cmds, h, total)
  {
    assert cmds == Init(cmds) + [Last(cmds)];
  }

  lemma TextureChangedKeepsRendering(cmds: seq<DrawCmd>, h0: Header, h: Header, idx: seq<Index>)
    requires Ready(cmds, h0, |idx|) && h0.(tex := h.tex) == h
    ensures Ready(TextureChanged(cmds, h, |idx|), h, |idx|)
    ensures InBounds(cmds, |idx|) && InBounds(TextureChanged(cmds, h, |idx|), |idx|)
    ensures Render(TextureChanged(cmds, h, |idx|), idx) == Render(cmds, idx)
  {
    HeaderChangeKeepsRendering(cmds, h, idx);
    TextureChangedCases(cmds, h0, h, |idx|);
  }

  lemma TextureChangedCases(cmds: seq<DrawCmd>, h0: Header, h: Header, total: nat)
    requires Ready(cmds, h0, total) && h0.(tex := h.tex) == h
    ensures TextureChanged(cmds, h, total) ==
            if DropsLast(cmds, h) then Init(cmds) else HeaderChanged(cmds, h, total)
  {
    assert cmds == Init(cmds) + [Last(cmds)];
  }

  lemma VtxOffsetChangedKeepsRendering(cmds: seq<DrawCmd>, h0: Header, h: Header, idx: seq<Index>)
    requires Ready(cmds, h0, |idx|) && h0.(vtxOffset := h.vtxOffset) == h
    ensures Ready(VtxOffsetChanged(cmds, h, |idx|), h, |idx|)
    ensures InBounds(cmds, |idx|) && InBounds(VtxOffsetChanged(cmds, h, |idx|), |idx|)
    ensures Render(VtxOffsetChanged(cmds, h, |idx|), idx) == Render(cmds, idx)
  {
    if Last(cmds).elemCount != 0 {
      AddEmptyCmd(cmds, h, idx);
    } else {
      RewriteEmptyCmd(cmds, h, idx);
    }
  }

  /** Both ways of reaching header `h`: dropping an unused command or HeaderChanged. */
  lemma HeaderChangeKeepsRendering(cmds: seq<DrawCmd>, h: Header, idx: seq<Index>)
    requires Chained(cmds, |idx|)
    requires cmds != [] ==> Last(cmds).callback.None?
    ensures Ready(HeaderChanged(cmds, h, |idx|), h, |idx|)
    ensures InBounds(cmds, |idx|) && InBounds(HeaderChanged(cmds, h, |idx|), |idx|)
    ensures Render(HeaderChanged(cmds, h, |idx|), idx) == Render(cmds, idx)
    ensures cmds != [] && DropsLast(cmds, h) ==>
              && Ready(Init(cmds), h, |idx|)
              && InBounds(Init(cmds), |idx|)
              && Render(Init(cmds), idx) == Render(cmds, idx)
  {
    ChainedInBounds(cmds, |idx|);
    if cmds == [] {
      AddEmptyCmd(cmds, h, idx);
      assert cmds + [NewCmd(h, |idx|)] == [NewCmd(h, |idx|)];
    } else if Last(cmds).elemCount == 0 {
      RewriteEmptyCmd(cmds, h, idx);
      if DropsLast(cmds, h) {
        DropEmptyCmd(cmds, idx);
        assert Last(Init(cmds)) == cmds[|cmds| - 2];
      }
    } else if Last(cmds).header != h {
      AddEmptyCmd(cmds, h, idx);
    }
  }

  // ------------------------------------- reserved but not yet written indices

  /** `cmds` with the last command's element count changed by `delta`. */
  function Resized(cmds: seq<DrawCmd>, delta: int): seq<DrawCmd>
    requires cmds != [] && Last(cmds).elemCount + delta >= 0
  {
    Init(cmds) + [Last(cmds).(elemCount := Last(cmds).elemCount + delta)]
  }

  /** The last command covers the `total - ptr` indices that are reserved but not written. */
  ghost predicate Covers(cmds: seq<DrawCmd>, total: nat, ptr: nat) {
    && cmds != []
    && Chained(cmds, total)
    && Last(cmds).callback.None?
    && ptr <= total <= ptr + Last(cmds).elemCount
  }

  lemma ResizedChained(cmds: seq<DrawCmd>, total: nat, delta: int)
    requires cmds != [] && Chained(cmds, total) && Last(cmds).callback.None?
    requires Last(cmds).elemCount + delta >= 0
    ensures total + delta >= 0 && Chained(Resized(cmds, delta), total + delta)
    ensures InBounds(Resized(cmds, delta), total + delta)
  {
    assert Init(Resized(cmds, delta)) == Init(cmds);
    ChainedInBounds(Resized(cmds, delta), total + delta);
  }

  /** What a backend would render of the indices before `ptr`. */
  ghost function TraceOf(cmds: seq<DrawCmd>, idx: seq<Index>, ptr: nat): seq<Event>
    requires Covers(cmds, |idx|, ptr)
  {
    ResizedChained(cmds, |idx|, ptr - |idx|);
    Render(Resized(cmds, ptr - |idx|), idx[..ptr])
  }

  lemma TraceSettled(cmds: seq<DrawCmd>, idx: seq<Index>)
    requires Covers(cmds, |idx|, |idx|)
    ensures InBounds(cmds, |idx|) && TraceOf(cmds, idx, |idx|) == Render(cmds, idx)
  {
    ChainedInBounds(cmds, |idx|);
    assert Resized(cmds, 0) == cmds && idx[..|idx|] == idx;
  }

  /** Reserving or giving back room changes nothing that is rendered. */
  lemma TraceReserve(cmds: seq<DrawCmd>, idx: seq<Index>, ptr: nat, resized: seq<Index>)
    requires Covers(cmds, |idx|, ptr) && ptr <= |resized| && idx[..ptr] == resized[..ptr]
    ensures Last(cmds).elemCount + |resized| - |idx| >= 0
    ensures Covers(Resized(cmds, |resized| - |idx|), |resized|, ptr)
    ensures TraceOf(Resized(cmds, |resized| - |idx|), resized, ptr) == TraceOf(cmds, idx, ptr)
  {
    hide Render, Chained;
    var cmds' := Resized(cmds, |resized| - |idx|);
    ResizedChained(cmds, |idx|, |resized| - |idx|);
    assert Init(cmds') == Init(cmds);
    assert Resized(cmds', ptr - |resized|) == Resized(cmds, ptr - |idx|);
  }

  /** Writing `more` at `ptr` appends exactly its elements to what is rendered. */
  lemma TraceWrite(cmds: seq<DrawCmd>, idx: seq<Index>, ptr: nat, more: seq<Index>, written: seq<Index>)
    requires Covers(cmds, |idx|, ptr) && ptr + |more| <= |idx| == |written|
    requires written[..ptr] == idx[..ptr] && written[ptr..ptr + |more|] == more
    ensures Covers(cmds, |written|, ptr + |more|)
    ensures TraceOf(cmds, written, ptr + |more|) == TraceOf(cmds, idx, ptr) + Elems(Last(cmds).header, more)
  {
    hide Render, Chained;
    var front, c := Init(cmds), Last(cmds).(elemCount := Last(cmds).elemCount + ptr - |idx|);
    ResizedChained(cmds, |idx|, ptr - |idx|);
    assert front + [c] == Resized(cmds, ptr - |idx|);
    RenderGrow(front, c, idx[..ptr], more);
    assert written[..ptr + |more|] == idx[..ptr] + more;
    assert Resized(cmds, ptr + |more| - |idx|) == front + [c.(elemCount := c.elemCount + |more|)];
  }

  // ------------------------------------------------------------ push and pop

  /** Pushing a clip rectangle and popping it with nothing drawn in between gives the command
      buffer back exactly, unless an unused last command gets dropped for good: by the pop
      itself, or by the push when the command before it is unused as well. */
  lemma PushPopClipRestores(cmds: seq<DrawCmd>, h0: Header, h: Header, total: nat)
    requires Ready(cmds, h0, total) && h0.(clip := h.clip) == h
    ensures ClipChanged(ClipChanged(cmds, h, total), h0, total) == cmds <==>
            !DropsLast(cmds, h0) && !(DropsLast(cmds, h) && cmds[|cmds| - 2].elemCount == 0)
  {
    assert cmds == Init(cmds) + [Last(cmds)];
    var mid := ClipChanged(cmds, h, total);
    if Last(cmds).elemCount != 0 && h0.clip != h.clip {
      assert Init(mid) == cmds;
    } else if DropsLast(cmds, h) {
      assert mid == Init(cmds);
    } else {
      assert Init(mid) == Init(cmds);
    }
  }

  lemma PushPopTextureRestores(cmds: seq<DrawCmd>, h0: Header, h: Header, total: nat)
    requires Ready(cmds, h0, total) && h0.(tex := h.tex) == h
    ensures TextureChanged(TextureChanged(cmds, h, total), h0, total) == cmds <==>
            !DropsLast(cmds, h0) && !(DropsLast(cmds, h) && cmds[|cmds| - 2].elemCount == 0)
  {
    assert cmds == Init(cmds) + [Last(cmds)];
    var mid := TextureChanged(cmds, h, total);
    if Last(cmds).elemCount != 0 && h0.tex != h.tex {
      assert Init(mid) == cmds;
    } else if DropsLast(cmds, h) {
      assert mid == Init(cmds);
    } else {
      assert Init(mid) == Init(cmds);
    }
  }
}
