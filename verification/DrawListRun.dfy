/** Whole runs of draw-list operations against the obvious reading: every primitive is drawn
    under the clip rectangle and texture current when it was submitted, every callback keeps
    its place, and channels are shown one after the other once merged. */
module DrawListRuns {
  import opened Options
  import opened DrawCommands
  import opened DrawLists
  import opened Splitters

  datatype CallData = Pointer(pointer: nat) | Bytes(bytes: seq<Byte>)

  /** One rendered vertex with the state it is drawn under, or one callback with its data. */
  datatype Shown = Drawn(clip: Rect, tex: TextureRef, vertex: Vertex) | Called(fn: nat, data: CallData)

  datatype Op =
    | PushClip(lo: Vec2, hi: Vec2, intersect: bool)
    | PopClip
    | PushTex(tex: TextureRef)
    | PopTex
    | SetTex(tex: TextureRef)
    | Mesh(vs: seq<Vertex>, tris: seq<nat>)
    | AddCmd
    | Invoke(fn: nat, userdata: nat, data: seq<Byte>)
    | Split(n: nat)
    | SetChannel(k: nat)
    | Merge

  /** The reference state: no commands, no indices, no buffers that move. `log` holds what was
      submitted since the last Split, each entry with its channel. */
  datatype Reference = Reference(
    clips: seq<Rect>, texs: seq<TextureRef>, clip: Rect, tex: TextureRef, vertices: nat,
    channels: nat, current: nat, shown: seq<Shown>, log: seq<(nat, Shown)>)

  /** What was submitted to channel `k`, in order. */
  function Submitted(log: seq<(nat, Shown)>, k: nat): seq<Shown> {
    if log == [] then []
    else Submitted(Init(log), k) + if Last(log).0 == k then [Last(log).1] else []
  }

  function Tagged(k: nat, es: seq<Shown>): seq<(nat, Shown)> {
    seq(|es|, i requires 0 <= i < |es| => (k, es[i]))
  }

  function Emit(r: Reference, es: seq<Shown>): Reference {
    if r.channels <= 1 then r.(shown := r.shown + es) else r.(log := r.log + Tagged(r.current, es))
  }

  /** The channels' contents; what was there before the split belongs to channel 0. */
  function Contents(r: Reference): seq<seq<Shown>> {
    if r.channels <= 1 then [r.shown]
    else seq(r.channels, k requires 0 <= k < r.channels => (if k == 0 then r.shown else []) + Submitted(r.log, k))
  }

  function DrawnMesh(clip: Rect, tex: TextureRef, vs: seq<Vertex>, tris: seq<nat>): seq<Shown>
    requires forall t :: t in tris ==> t < |vs|
  {
    seq(|tris|, k requires 0 <= k < |tris| => assert tris[k] in tris; Drawn(clip, tex, vs[tris[k]]))
  }

  /** What the source demands of its callers, plus the limits of 16-bit indices. */
  predicate Legal(r: Reference, allow: bool, op: Op) {
    match op
    case PopClip => r.clips != []
    case PopTex => r.texs != []
    case SetTex(tex) => r.tex != tex ==> r.texs != []
    case Mesh(vs, tris) =>
      && (forall t :: t in tris ==> t < |vs|)
      && (if allow then |vs| <= INDEX_RANGE else r.vertices + |vs| <= INDEX_RANGE)
    case Split(n) => r.channels <= 1 && n >= 1
    case SetChannel(k) => k < r.channels
    case _ => true
  }

  function Next(r: Reference, allow: bool, full: Rect, op: Op): Reference
    requires Legal(r, allow, op)
  {
    match op
    case PushClip(lo, hi, intersect) =>
      var c := PushedClip(r.clip, lo, hi, intersect); r.(clips := r.clips + [c], clip := c)
    case PopClip =>
      var cs := Init(r.clips); r.(clips := cs, clip := if cs == [] then full else Last(cs))
    case PushTex(tex) => r.(texs := r.texs + [tex], tex := tex)
    case PopTex =>
      var ts := Init(r.texs); r.(texs := ts, tex := if ts == [] then TextureRef(0, 0) else Last(ts))
    case SetTex(tex) => if r.tex == tex then r else r.(texs := Init(r.texs) + [tex], tex := tex)
    case Mesh(vs, tris) => Emit(r.(vertices := r.vertices + |vs|), DrawnMesh(r.clip, r.tex, vs, tris))
    case AddCmd => r
    case Invoke(fn, userdata, data) =>
      Emit(r, [Called(fn, if data == [] then Pointer(userdata) else Bytes(data))])
    case Split(n) => r.(channels := n, current := 0, log := [])
    case SetChannel(k) => r.(current := k)
    case Merge =>
      if r.channels <= 1 then r else r.(channels := 1, current := 0, shown := Flatten(Contents(r)), log := [])
  }

  predicate AllLegal(r: Reference, allow: bool, full: Rect, ops: seq<Op>)
    decreases |ops|
  {
    ops == [] || (Legal(r, allow, ops[0]) && AllLegal(Next(r, allow, full, ops[0]), allow, full, ops[1..]))
  }

  function After(r: Reference, allow: bool, full: Rect, ops: seq<Op>): Reference
    requires AllLegal(r, allow, full, ops)
    decreases |ops|
  {
    if ops == [] then r else After(Next(r, allow, full, ops[0]), allow, full, ops[1..])
  }

  /** How far the current 16-bit window of indices is used up after an operation. */
  function BaseAfter(allow: bool, base: nat, op: Op): nat {
    if op.Mesh? then BaseAfterReserve(allow, base, |op.vs|) + |op.vs| else base
  }

  /** How many commands an operation may open whatever the vertices: one when the clip rectangle or
      the texture changes, when the channel changes or is merged and when a command is opened by hand,
      and two for a callback. Drawing opens none. */
  function Break(r: Reference, allow: bool, full: Rect, op: Op): nat
    requires Legal(r, allow, op)
  {
    var n := Next(r, allow, full, op);
    match op
    case Mesh(_, _) => 0
    case AddCmd => 1
    case Invoke(_, _, _) => 2
    case SetChannel(k) => if k != r.current then 1 else 0
    case Merge => if r.channels > 1 then 1 else 0
    case _ => if n.clip != r.clip || n.tex != r.tex then 1 else 0
  }

  function Breaks(r: Reference, allow: bool, full: Rect, ops: seq<Op>): nat
    requires AllLegal(r, allow, full, ops)
    decreases |ops|
  {
    if ops == [] then 0
    else Break(r, allow, full, ops[0]) + Breaks(Next(r, allow, full, ops[0]), allow, full, ops[1..])
  }

  /** The vertices of all meshes. */
  function Vertices(ops: seq<Op>): nat {
    if ops == [] then 0 else (if ops[0].Mesh? then |ops[0].vs| else 0) + Vertices(ops[1..])
  }

  /** How many commands more an operation leaves at most: its breaks, and one when a window opens. */
  function Cost(r: Reference, allow: bool, full: Rect, base: nat, op: Op): nat
    requires Legal(r, allow, op)
  {
    if op.Mesh? && OpensWindow(allow, base, |op.vs|) then 1 else Break(r, allow, full, op)
  }

  function Costs(r: Reference, allow: bool, full: Rect, base: nat, ops: seq<Op>): nat
    requires AllLegal(r, allow, full, ops)
    decreases |ops|
  {
    if ops == [] then 0
    else
      var next := Next(r, allow, full, ops[0]);
      Cost(r, allow, full, base, ops[0]) + Costs(next, allow, full, BaseAfter(allow, base, ops[0]), ops[1..])
  }

  /** While the vertices stay within one window, drawing opens no command; and in any case every
      window that is opened goes with 32768 vertices. */
  lemma {:induction false} WindowsOpened(r: Reference, allow: bool, full: Rect, base: nat, ops: seq<Op>)
    requires AllLegal(r, allow, full, ops)
    ensures Breaks(r, allow, full, ops) <= Costs(r, allow, full, base, ops)
    ensures !allow || base + Vertices(ops) < 0x1_0000 ==>
              Costs(r, allow, full, base, ops) == Breaks(r, allow, full, ops)
    ensures 0x1_0000 * (Costs(r, allow, full, base, ops) - Breaks(r, allow, full, ops)) <= base + 2 * Vertices(ops)
    decreases |ops|
  {
    hide Next, Break, Legal;
    if ops != [] {
      WindowsOpened(Next(r, allow, full, ops[0]), allow, full, BaseAfter(allow, base, ops[0]), ops[1..]);
      if ops[0].Mesh? {
        MeshBreaks(r, allow, full, ops[0]);
      }
    }
  }

  lemma MeshBreaks(r: Reference, allow: bool, full: Rect, op: Op)
    requires Legal(r, allow, op) && op.Mesh?
    ensures Break(r, allow, full, op) == 0
  {
  }

  const START: Reference := Reference([], [], Rect(0.0, 0.0, 0.0, 0.0), TextureRef(0, 0), 0, 0, 0, [], [])

  // --------------------------------------------------------- the channel laws

  lemma {:induction false} SubmittedConcat(a: seq<(nat, Shown)>, b: seq<(nat, Shown)>, k: nat)
    ensures Submitted(a + b, k) == Submitted(a, k) + Submitted(b, k)
  {
    if b == [] {
      assert a + b == a;
    } else {
      assert Init(a + b) == a + Init(b);
      SubmittedConcat(a, Init(b), k);
    }
  }

  lemma {:induction false} SubmittedTagged(c: nat, es: seq<Shown>, k: nat)
    ensures Submitted(Tagged(c, es), k) == if c == k then es else []
  {
    if es != [] {
      assert Init(Tagged(c, es)) == Tagged(c, Init(es));
      SubmittedTagged(c, Init(es), k);
    }
  }

  /** A submission adds to the current channel and to no other. */
  lemma EmitContents(r: Reference, es: seq<Shown>)
    requires r.channels <= 1 ==> r.current == 0
    requires r.channels > 1 ==> r.current < r.channels
    ensures |Contents(Emit(r, es))| == |Contents(r)| > r.current
    ensures Contents(Emit(r, es)) == Contents(r)[r.current := Contents(r)[r.current] + es]
  {
    hide Submitted, Tagged;
    var was, now := Contents(r), Contents(Emit(r, es));
    if r.channels > 1 {
      forall k | 0 <= k < r.channels ensures now[k] == if k == r.current then was[k] + es else was[k] {
        EmittedTo(r.log, if k == 0 then r.shown else [], r.current, es, k);
      }
    }
    assert now == was[r.current := was[r.current] + es];
  }

  /** What a submission to channel `current` adds to channel `k`. */
  lemma EmittedTo(log: seq<(nat, Shown)>, start: seq<Shown>, current: nat, es: seq<Shown>, k: nat)
    ensures start + Submitted(log + Tagged(current, es), k) ==
            if k == current then start + Submitted(log, k) + es else start + Submitted(log, k)
  {
    hide Submitted, Tagged;
    SubmittedConcat(log, Tagged(current, es), k);
    SubmittedTagged(current, es, k);
    AppendAssoc(start, Submitted(log, k), es);
  }

  /** Merging shows what was there before the split, then everything submitted to channel 0,
      then everything submitted to channel 1, and so on. */
  lemma {:induction false} MergeOrder(r: Reference, n: nat)
    requires 1 < r.channels && 1 <= n <= r.channels
    ensures Flatten(Contents(r)[..n]) == r.shown + Flatten(seq(n, k requires 0 <= k < n => Submitted(r.log, k)))
  {
    var submitted := seq(n, k requires 0 <= k < n => Submitted(r.log, k));
    assert Init(Contents(r)[..n]) == Contents(r)[..n - 1];
    assert Init(submitted) == seq(n - 1, k requires 0 <= k < n - 1 => Submitted(r.log, k));
    if n == 1 {
      assert Flatten(Init(submitted)) == [];
    } else {
      MergeOrder(r, n - 1);
      AppendAssoc(r.shown, Flatten(Init(submitted)), Last(submitted));
    }
  }

  // ------------------------------------------------- traces and what they show

  predicate Shows(e: Event, s: Shown, vtx: seq<Vertex>, data: seq<Byte>) {
    match e
    case Elem(clip, tex, v) => s.Drawn? && s.clip == clip && s.tex == tex && v < |vtx| && vtx[v] == s.vertex
    case Call(Callback(fn, Direct(p))) => s == Called(fn, Pointer(p))
    case Call(Callback(fn, Stored(offset, size))) =>
      offset + size <= |data| && s == Called(fn, Bytes(data[offset..offset + size]))
  }

  predicate TraceShows(es: seq<Event>, ss: seq<Shown>, vtx: seq<Vertex>, data: seq<Byte>) {
    |es| == |ss| && forall i :: 0 <= i < |es| ==> Shows(es[i], ss[i], vtx, data)
  }

  predicate LayersShow(layers: seq<seq<Event>>, contents: seq<seq<Shown>>, vtx: seq<Vertex>, data: seq<Byte>) {
    |layers| == |contents| && forall k :: 0 <= k < |layers| ==> TraceShows(layers[k], contents[k], vtx, data)
  }

  /** Vertices and callback data appended later do not change what a trace shows. */
  lemma ShowsGrow(layers: seq<seq<Event>>, contents: seq<seq<Shown>>, vtx: seq<Vertex>, data: seq<Byte>,
      vtx': seq<Vertex>, data': seq<Byte>)
    requires LayersShow(layers, contents, vtx, data) && vtx <= vtx' && data <= data'
    ensures LayersShow(layers, contents, vtx', data')
  {
    forall k | 0 <= k < |layers| ensures TraceShows(layers[k], contents[k], vtx', data') {
      forall i | 0 <= i < |layers[k]| ensures Shows(layers[k][i], contents[k][i], vtx', data') {
        assert Shows(layers[k][i], contents[k][i], vtx, data);
        match layers[k][i]
        case Elem(_, _, _) =>
        case Call(Callback(_, Direct(_))) =>
        case Call(Callback(_, Stored(offset, size))) =>
          assert data[offset..offset + size] == data'[offset..offset + size];
      }
    }
  }

  lemma {:induction false} FlattenShows(layers: seq<seq<Event>>, contents: seq<seq<Shown>>, vtx: seq<Vertex>,
      data: seq<Byte>)
    requires LayersShow(layers, contents, vtx, data)
    ensures TraceShows(Flatten(layers), Flatten(contents), vtx, data)
  {
    if layers != [] {
      FlattenShows(Init(layers), Init(contents), vtx, data);
      assert TraceShows(Last(layers), Last(contents), vtx, data);
    }
  }

  lemma MeshShows(clip: Rect, tex: TextureRef, vtx: seq<Vertex>, vs: seq<Vertex>, tris: seq<nat>, data: seq<Byte>)
    requires forall t :: t in tris ==> t < |vs|
    ensures TraceShows(MeshEvents(clip, tex, |vtx|, tris), DrawnMesh(clip, tex, vs, tris), vtx + vs, data)
  {
    forall i | 0 <= i < |tris|
      ensures Shows(MeshEvents(clip, tex, |vtx|, tris)[i], DrawnMesh(clip, tex, vs, tris)[i], vtx + vs, data)
    {
      assert tris[i] in tris;
    }
  }

  /** Appending to the current layer on both sides. */
  lemma AppendShows(layers: seq<seq<Event>>, contents: seq<seq<Shown>>, k: nat, es: seq<Event>, ss: seq<Shown>,
      vtx: seq<Vertex>, data: seq<Byte>)
    requires LayersShow(layers, contents, vtx, data) && k < |layers| && TraceShows(es, ss, vtx, data)
    ensures LayersShow(layers[k := layers[k] + es], contents[k := contents[k] + ss], vtx, data)
  {
  }

  // --------------------------------------------------------------------- runs

  /** The draw list and its splitter stand for the reference state. */
  ghost predicate Stands(r: Reference, dl: DrawList, sp: Splitter)
    reads dl, sp
  {
    && sp.Valid(dl)
    && dl.cmdHeader.clip == r.clip && dl.cmdHeader.tex == r.tex
    && dl.clipRectStack == r.clips && dl.textureStack == r.texs
    && |dl.vtxBuffer| == r.vertices
    && (!dl.allowVtxOffset ==> dl.cmdHeader.vtxOffset == 0)
    && sp.count == r.channels && sp.current == r.current
    && LayersShow(sp.Layers(dl), Contents(r), dl.vtxBuffer, dl.callbacksDataBuf)
  }

  lemma LayersUpdate(channels: seq<Channel>, current: nat, t: seq<Event>, t': seq<Event>)
    requires current < |channels|
    requires forall k :: 0 <= k < |channels| && k != current ==> ChannelOk(channels[k])
    ensures LayersOf(channels, current, t') == LayersOf(channels, current, t)[current := t']
    ensures LayersOf(channels, current, t)[current] == t
  {
  }

  /** The commands of all channels grow as those of the current one do. */
  lemma CommandsGrew(sp: Splitter, dl: DrawList, before: nat, cmds: seq<DrawCmd>, idx: seq<Index>, cost: nat)
    requires sp.Valid(dl) && |dl.cmdBuffer| <= |cmds| + cost
    requires before == if sp.count <= 1 then |cmds|
        else |FlatCmds(sp.channels[..sp.count][sp.current := Channel(cmds, idx)])|
    ensures sp.Commands(dl) <= before + cost
  {
    hide ChannelOk, Covers, FlatCmds;
    if sp.count > 1 {
      var was := sp.channels[..sp.count][sp.current := Channel(cmds, idx)];
      var now := Channel(dl.cmdBuffer, dl.idxBuffer);
      FlatCmdsUpdate(was, sp.current, now);
      assert was[sp.current := now] == sp.channels[..sp.count][sp.current := now];
    }
  }

  lemma ChangeCosts(cmds: seq<DrawCmd>, h: Header, total: nat)
    requires cmds != []
    ensures |ClipChanged(cmds, h, total)| <= |cmds| + if Last(cmds).header.clip != h.clip then 1 else 0
    ensures |TextureChanged(cmds, h, total)| <= |cmds| + if Last(cmds).header.tex != h.tex then 1 else 0
    ensures |VtxOffsetChanged(cmds, h, total)| <= |cmds| + 1
    ensures forall cb :: |CallbackAdded(cmds, h, total, cb)| <= |cmds| + 2
  {
  }

  lemma StandsValid(r: Reference, dl: DrawList, sp: Splitter)
    requires Stands(r, dl, sp)
    ensures sp.Valid(dl) && dl.cmdBuffer != [] && Last(dl.cmdBuffer).header == dl.cmdHeader
  {
    hide Chained, LayersShow;
  }

  method DoClip(dl: DrawList, sp: Splitter, ghost r: Reference, op: Op)
    requires Stands(r, dl, sp) && Legal(r, dl.allowVtxOffset, op) && (op.PushClip? || op.PopClip?)
    modifies dl`cmdBuffer, dl`cmdHeader, dl`clipRectStack
    ensures Stands(Next(r, dl.allowVtxOffset, dl.clipRectFullscreen, op), dl, sp)
    ensures sp.Valid(dl)
      && sp.Commands(dl) <= old(sp.Commands(dl))
      + Cost(r, dl.allowVtxOffset, dl.clipRectFullscreen, old(dl.vtxCurrentIdx), op)
  {
    hide Covers, LayersOf, ChannelOk, TraceOf, LayersShow, ClipChanged, TextureChanged, PushedClip, FlatCmds;
    StandsValid(r, dl, sp);
    ghost var before, cmds, idx := sp.Commands(dl), dl.cmdBuffer, dl.idxBuffer;
    ghost var h := dl.cmdHeader;
    match op {
      case PushClip(lo, hi, intersect) => dl.PushClipRect(lo, hi, intersect);
      case PopClip => dl.PopClipRect();
    }
    ChangeCosts(cmds, dl.cmdHeader, |idx|);
    CommandsGrew(sp, dl, before, cmds, idx, if dl.cmdHeader.clip != h.clip then 1 else 0);
  }

  method DoTexture(dl: DrawList, sp: Splitter, ghost r: Reference, op: Op)
    requires Stands(r, dl, sp) && Legal(r, dl.allowVtxOffset, op) && (op.PushTex? || op.PopTex? || op.SetTex?)
    modifies dl`cmdBuffer, dl`cmdHeader, dl`textureStack
    ensures Stands(Next(r, dl.allowVtxOffset, dl.clipRectFullscreen, op), dl, sp)
    ensures sp.Valid(dl)
      && sp.Commands(dl) <= old(sp.Commands(dl))
      + Cost(r, dl.allowVtxOffset, dl.clipRectFullscreen, old(dl.vtxCurrentIdx), op)
  {
    hide Covers, LayersOf, ChannelOk, TraceOf, LayersShow, ClipChanged, TextureChanged, PushedClip, FlatCmds;
    StandsValid(r, dl, sp);
    ghost var before, cmds, idx := sp.Commands(dl), dl.cmdBuffer, dl.idxBuffer;
    ghost var h := dl.cmdHeader;
    match op {
      case PushTex(tex) => dl.PushTexture(tex);
      case PopTex => dl.PopTexture();
      case SetTex(tex) => dl.SetTexture(tex);
    }
    ChangeCosts(cmds, dl.cmdHeader, |idx|);
    CommandsGrew(sp, dl, before, cmds, idx, if dl.cmdHeader.tex != h.tex then 1 else 0);
  }

  /** The current layer has grown by `es` on the draw list's side and by `ss` on the other. */
  lemma DrewMore(r: Reference, es: seq<Event>, ss: seq<Shown>, layers: seq<seq<Event>>, now: seq<seq<Event>>,
                 vtx: seq<Vertex>, data: seq<Byte>, vtx': seq<Vertex>, data': seq<Byte>)
    requires LayersShow(layers, Contents(r), vtx, data) && vtx <= vtx' && data <= data'
    requires TraceShows(es, ss, vtx', data')
    requires r.channels <= 1 ==> r.current == 0
    requires r.channels > 1 ==> r.current < r.channels
    requires r.current < |layers| && now == layers[r.current := layers[r.current] + es]
    ensures LayersShow(now, Contents(Emit(r, ss)), vtx', data')
  {
    EmitContents(r, ss);
    ShowsGrow(layers, Contents(r), vtx, data, vtx', data');
    AppendShows(layers, Contents(r), r.current, es, ss, vtx', data');
  }

  /** What the splitter shows after the draw list drew `es` on the current channel. */
  lemma LayersDrew(channels: seq<Channel>, count: nat, current: nat, t: seq<Event>, es: seq<Event>)
    requires count <= 1 ==> current == 0
    requires count > 1 ==> current < count <= |channels| && forall k :: 0 <= k < count && k != current ==>
        ChannelOk(channels[k])
    ensures var was := if count <= 1 then [t] else LayersOf(channels[..count], current, t);
            var now := if count <= 1 then [t + es] else LayersOf(channels[..count], current, t + es);
            && current < |was| && now == was[current := was[current] + es]
  {
    if count > 1 {
      LayersUpdate(channels[..count], current, t, t + es);
    }
  }

  /** Drawing `es` on the draw list's side is showing `ss` on the other. */
  lemma StandsAfter(r: Reference, es: seq<Event>, ss: seq<Shown>, t: seq<Event>, layers: seq<seq<Event>>,
                    vtx: seq<Vertex>, data: seq<Byte>, dl: DrawList, sp: Splitter)
    requires sp.Valid(dl) && sp.count == r.channels && sp.current == r.current
    requires dl.cmdHeader.clip == r.clip && dl.cmdHeader.tex == r.tex
    requires dl.clipRectStack == r.clips && dl.textureStack == r.texs && |dl.vtxBuffer| == r.vertices
    requires !dl.allowVtxOffset ==> dl.cmdHeader.vtxOffset == 0
    requires layers == if sp.count <= 1 then [t] else LayersOf(sp.channels[..sp.count], sp.current, t)
    requires dl.Trace() == t + es && LayersShow(layers, Contents(r), vtx, data)
    requires vtx <= dl.vtxBuffer && data <= dl.callbacksDataBuf
    requires TraceShows(es, ss, dl.vtxBuffer, dl.callbacksDataBuf)
    ensures Stands(Emit(r, ss), dl, sp)
  {
    hide Covers, LayersOf, ChannelOk, TraceOf, LayersShow, Contents, TraceShows;
    LayersDrew(sp.channels, sp.count, sp.current, t, es);
    DrewMore(r, es, ss, layers, sp.Layers(dl), vtx, data, dl.vtxBuffer, dl.callbacksDataBuf);
  }

  method DoMesh(dl: DrawList, sp: Splitter, ghost r: Reference, vs: seq<Vertex>, tris: seq<nat>)
    requires Stands(r, dl, sp) && Legal(r, dl.allowVtxOffset, Mesh(vs, tris))
    modifies dl`cmdBuffer, dl`cmdHeader, dl`vtxCurrentIdx, dl`idxBuffer, dl`vtxBuffer, dl`vtxWritePtr, dl`idxWritePtr
    ensures Stands(Next(r, dl.allowVtxOffset, dl.clipRectFullscreen, Mesh(vs, tris)), dl, sp)
    ensures sp.Valid(dl)
      && sp.Commands(dl) <= old(sp.Commands(dl))
      + Cost(r, dl.allowVtxOffset, dl.clipRectFullscreen, old(dl.vtxCurrentIdx), Mesh(vs, tris))
    ensures dl.vtxCurrentIdx == BaseAfter(dl.allowVtxOffset, old(dl.vtxCurrentIdx), Mesh(vs, tris))
  {
    hide Covers, LayersOf, ChannelOk, TraceOf, LayersShow, Fits, MeshEvents, DrawnMesh, Contents, TraceShows;
    ghost var t, layers, vtx := dl.Trace(), sp.Layers(dl), dl.vtxBuffer;
    StandsValid(r, dl, sp);
    ghost var before, cmds, idx := sp.Commands(dl), dl.cmdBuffer, dl.idxBuffer;
    ghost var opens := OpensWindow(dl.allowVtxOffset, dl.vtxCurrentIdx, |vs|);
    ChangeCosts(cmds, HeaderAfterReserve(dl.cmdHeader, opens, |vtx|), |idx|);
    SmallMeshFits(dl.allowVtxOffset, dl.vtxCurrentIdx, |vs|, tris);
    MeshShows(r.clip, r.tex, vtx, vs, tris, dl.callbacksDataBuf);
    dl.AddMesh(vs, tris);
    StandsAfter(r.(vertices := r.vertices + |vs|), MeshEvents(r.clip, r.tex, |vtx|, tris),
        DrawnMesh(r.clip, r.tex, vs, tris),
                t, layers, vtx, dl.callbacksDataBuf, dl, sp) by { ContentsSame(r, |vs|); }
    CommandsGrew(sp, dl, before, cmds, idx, if opens then 1 else 0);
  }

  lemma ContentsSame(r: Reference, n: nat)
    ensures Contents(r.(vertices := r.vertices + n)) == Contents(r)
  {
  }

  method DoInvoke(dl: DrawList, sp: Splitter, ghost r: Reference, fn: nat, userdata: nat, bytes: seq<Byte>)
    requires Stands(r, dl, sp)
    modifies dl`cmdBuffer, dl`callbacksDataBuf
    ensures Stands(Next(r, dl.allowVtxOffset, dl.clipRectFullscreen, Invoke(fn, userdata, bytes)), dl, sp)
    ensures sp.Valid(dl)
      && sp.Commands(dl) <= old(sp.Commands(dl))
      + Cost(r, dl.allowVtxOffset, dl.clipRectFullscreen, old(dl.vtxCurrentIdx), Invoke(fn, userdata, bytes))
  {
    hide Covers, LayersOf, ChannelOk, TraceOf, LayersShow, Contents, TraceShows, Shows;
    ghost var t, layers, data := dl.Trace(), sp.Layers(dl), dl.callbacksDataBuf;
    ghost var es := [Call(Callback(fn, if bytes == [] then Direct(userdata) else Stored(|data|, |bytes|)))];
    ghost var ss := [Called(fn, if bytes == [] then Pointer(userdata) else Bytes(bytes))];
    StandsValid(r, dl, sp);
    ghost var before, cmds, idx := sp.Commands(dl), dl.cmdBuffer, dl.idxBuffer;
    CallShows(fn, userdata, bytes, dl.vtxBuffer, data);
    ChangeCosts(cmds, dl.cmdHeader, |idx|);
    dl.AddCallback(fn, userdata, bytes);
    StandsAfter(r, es, ss, t, layers, dl.vtxBuffer, data, dl, sp);
    CommandsGrew(sp, dl, before, cmds, idx, 2);
  }

  lemma CallShows(fn: nat, userdata: nat, bytes: seq<Byte>, vtx: seq<Vertex>, data: seq<Byte>)
    ensures TraceShows([Call(Callback(fn, if bytes == [] then Direct(userdata) else Stored(|data|, |bytes|)))],
                       [Called(fn, if bytes == [] then Pointer(userdata) else Bytes(bytes))], vtx, data + bytes)
  {
    assert (data + bytes)[|data|..|data| + |bytes|] == bytes;
  }

  method DoAddCmd(dl: DrawList, sp: Splitter, ghost r: Reference)
    requires Stands(r, dl, sp)
    modifies dl`cmdBuffer
    ensures Stands(r, dl, sp) && dl.cmdBuffer == old(dl.cmdBuffer) + [NewCmd(dl.cmdHeader, |dl.idxBuffer|)]
    ensures sp.Valid(dl)
      && sp.Commands(dl) <= old(sp.Commands(dl))
      + Cost(r, dl.allowVtxOffset, dl.clipRectFullscreen, old(dl.vtxCurrentIdx), AddCmd)
  {
    hide Covers, LayersOf, ChannelOk, TraceOf, LayersShow, Contents;
    StandsValid(r, dl, sp);
    ghost var before, cmds, idx := sp.Commands(dl), dl.cmdBuffer, dl.idxBuffer;
    dl.AddDrawCmd();
    CommandsGrew(sp, dl, before, cmds, idx, 1);
  }

  lemma SplitContents(r: Reference, n: nat)
    requires r.channels <= 1 && n >= 1
    ensures Contents(r.(channels := n, current := 0, log := [])) == [r.shown] + seq(n - 1, _ => [])
  {
    assert r.shown + Submitted([], 0) == r.shown;
    var split, want := Contents(r.(channels := n, current := 0, log := [])), [r.shown] + seq(n - 1, _ => []);
    forall k | 0 <= k < n ensures split[k] == want[k] {
      assert Submitted([], k) == [] && (k > 0 ==> [] + Submitted([], k) == []);
    }
  }

  method DoSplit(dl: DrawList, sp: Splitter, ghost r: Reference, n: nat)
    requires Stands(r, dl, sp) && Legal(r, dl.allowVtxOffset, Split(n))
    modifies sp
    ensures Stands(Next(r, dl.allowVtxOffset, dl.clipRectFullscreen, Split(n)), dl, sp)
    ensures sp.Valid(dl)
      && sp.Commands(dl) <= old(sp.Commands(dl))
      + Cost(r, dl.allowVtxOffset, dl.clipRectFullscreen, old(dl.vtxCurrentIdx), Split(n))
  {
    hide Covers, TraceOf;
    SplitContents(r, n);
    assert TraceShows(sp.Layers(dl)[0], Contents(r)[0], dl.vtxBuffer, dl.callbacksDataBuf);
    sp.Split(dl, n);
  }

  method DoChannel(dl: DrawList, sp: Splitter, ghost r: Reference, k: nat)
    requires Stands(r, dl, sp) && Legal(r, dl.allowVtxOffset, SetChannel(k))
    modifies sp`current, sp`channels, dl`cmdBuffer, dl`idxBuffer, dl`idxWritePtr
    ensures Stands(Next(r, dl.allowVtxOffset, dl.clipRectFullscreen, SetChannel(k)), dl, sp)
    ensures sp.Valid(dl)
      && sp.Commands(dl) <= old(sp.Commands(dl))
      + Cost(r, dl.allowVtxOffset, dl.clipRectFullscreen, old(dl.vtxCurrentIdx), SetChannel(k))
  {
    hide Covers, LayersOf, ChannelOk, TraceOf, LayersShow;
    sp.SetCurrentChannel(dl, k);
  }

  method DoMerge(dl: DrawList, sp: Splitter, ghost r: Reference)
    requires Stands(r, dl, sp)
    modifies sp, dl`cmdBuffer, dl`idxBuffer, dl`idxWritePtr
    ensures Stands(Next(r, dl.allowVtxOffset, dl.clipRectFullscreen, Merge), dl, sp)
    ensures sp.Valid(dl)
      && sp.Commands(dl) <= old(sp.Commands(dl))
      + Cost(r, dl.allowVtxOffset, dl.clipRectFullscreen, old(dl.vtxCurrentIdx), Merge)
  {
    hide Covers, LayersOf, ChannelOk, TraceOf, LayersShow, Contents, Flatten, Closed, Gathers, Brought, PiecesOf;
    ghost var layers := sp.Layers(dl);
    MergeShows(r, layers, dl.vtxBuffer, dl.callbacksDataBuf);
    ghost var _, _ := sp.Merge(dl);
  }

  lemma MergeShows(r: Reference, layers: seq<seq<Event>>, vtx: seq<Vertex>, data: seq<Byte>)
    requires LayersShow(layers, Contents(r), vtx, data)
    ensures r.channels <= 1 ==> LayersShow([Flatten(layers)], Contents(r), vtx, data)
    ensures LayersShow([Flatten(layers)],
        Contents(r.(channels := 1, current := 0, shown := Flatten(Contents(r)), log := [])), vtx, data)
  {
    FlattenShows(layers, Contents(r), vtx, data);
    if r.channels <= 1 {
      assert Flatten(Init(Contents(r))) == [];
    }
  }

  /** One operation. */
  method Do(dl: DrawList, sp: Splitter, ghost r: Reference, op: Op)
    requires Stands(r, dl, sp) && Legal(r, dl.allowVtxOffset, op)
    modifies dl, sp
    ensures dl.allowVtxOffset == old(dl.allowVtxOffset)
    ensures Stands(Next(r, dl.allowVtxOffset, dl.clipRectFullscreen, op), dl, sp)
    ensures sp.Valid(dl)
      && sp.Commands(dl) <= old(sp.Commands(dl))
      + Cost(r, dl.allowVtxOffset, dl.clipRectFullscreen, old(dl.vtxCurrentIdx), op)
    ensures dl.vtxCurrentIdx == BaseAfter(dl.allowVtxOffset, old(dl.vtxCurrentIdx), op)
  {
    hide Stands, Next, Cost, Splitter.Commands;
    StandsValid(r, dl, sp);
    match op
    case PushClip(_, _, _) => DoClip(dl, sp, r, op);
    case PopClip => DoClip(dl, sp, r, op);
    case PushTex(_) => DoTexture(dl, sp, r, op);
    case PopTex => DoTexture(dl, sp, r, op);
    case SetTex(_) => DoTexture(dl, sp, r, op);
    case Mesh(vs, tris) => DoMesh(dl, sp, r, vs, tris);
    case AddCmd => DoAddCmd(dl, sp, r); NextAddCmd(r, dl.allowVtxOffset, dl.clipRectFullscreen);
    case Invoke(fn, userdata, data) => DoInvoke(dl, sp, r, fn, userdata, data);
    case Split(n) => DoSplit(dl, sp, r, n);
    case SetChannel(k) => DoChannel(dl, sp, r, k);
    case Merge => DoMerge(dl, sp, r);
  }

  lemma NextAddCmd(r: Reference, allow: bool, full: Rect)
    ensures Next(r, allow, full, AddCmd) == r
  {
  }

  /** Both lists of what is to come and what it costs are worked off one by one. */
  lemma NextOp(r: Reference, allow: bool, full: Rect, base: nat, ops: seq<Op>, i: nat)
    requires i < |ops| && AllLegal(r, allow, full, ops[i..])
    ensures Legal(r, allow, ops[i]) && AllLegal(Next(r, allow, full, ops[i]), allow, full, ops[i + 1..])
    ensures After(r, allow, full, ops[i..]) == After(Next(r, allow, full, ops[i]), allow, full, ops[i + 1..])
    ensures Costs(r, allow, full, base, ops[i..]) ==
            Cost(r, allow, full, base, ops[i])
            + Costs(Next(r, allow, full, ops[i]), allow, full, BaseAfter(allow, base, ops[i]), ops[i + 1..])
  {
    hide Next, Cost, Legal;
    assert ops[i..][0] == ops[i] && ops[i..][1..] == ops[i + 1..];
  }

  lemma NoMoreOps(r: Reference, allow: bool, full: Rect, base: nat, ops: seq<Op>)
    ensures ops[0..] == ops && ops[|ops|..] == []
    ensures AllLegal(r, allow, full, ops[|ops|..]) && After(r, allow, full, ops[|ops|..]) == r
  {
  }

  /** Any run from where list, splitter and reference agree. */
  method RunFrom(dl: DrawList, sp: Splitter, ghost r0: Reference, ops: seq<Op>)
    requires Stands(r0, dl, sp) && sp.Valid(dl) && AllLegal(r0, dl.allowVtxOffset, dl.clipRectFullscreen, ops)
    modifies dl, sp
    ensures dl.allowVtxOffset == old(dl.allowVtxOffset) && sp.Valid(dl)
    ensures Stands(After(r0, dl.allowVtxOffset, dl.clipRectFullscreen, ops), dl, sp)
    ensures sp.Commands(dl) <=
            old(sp.Commands(dl)) + Costs(r0, dl.allowVtxOffset, dl.clipRectFullscreen, old(dl.vtxCurrentIdx), ops)
  {
    hide Stands, Next, Cost, Costs, After, AllLegal, Legal, Splitter.Commands, Splitter.Valid, BaseAfter;
    ghost var allow, full, r := dl.allowVtxOffset, dl.clipRectFullscreen, r0;
    ghost var most := sp.Commands(dl) + Costs(r0, allow, full, dl.vtxCurrentIdx, ops);
    NoMoreOps(r, allow, full, 0, ops);
    for i := 0 to |ops|
      invariant Stands(r, dl, sp) && sp.Valid(dl) && dl.allowVtxOffset == allow && dl.clipRectFullscreen == full
      invariant AllLegal(r, allow, full, ops[i..]) && After(r, allow, full, ops[i..]) == After(r0, allow, full, ops)
      invariant sp.Commands(dl) + Costs(r, allow, full, dl.vtxCurrentIdx, ops[i..]) <= most
    {
      NextOp(r, allow, full, dl.vtxCurrentIdx, ops, i);
      Do(dl, sp, r, ops[i]);
      r := Next(r, allow, full, ops[i]);
    }
    NoMoreOps(r, allow, full, 0, ops);
  }

  /** What a backend renders from the buffers of a list that is not split. */
  ghost predicate Rendered(r: Reference, dl: DrawList)
    reads dl
  {
    && Chained(dl.cmdBuffer, |dl.idxBuffer|) && InBounds(dl.cmdBuffer, |dl.idxBuffer|)
    && dl.cmdBuffer != [] && Last(dl.cmdBuffer).callback.None? && Last(dl.cmdBuffer).header == dl.cmdHeader
    && TraceShows(Render(dl.cmdBuffer, dl.idxBuffer), r.shown, dl.vtxBuffer, dl.callbacksDataBuf)
  }

  lemma StandsRendered(r: Reference, dl: DrawList, sp: Splitter)
    requires Stands(r, dl, sp) && r.channels <= 1
    ensures Rendered(r, dl)
  {
    hide Chained, Render, InBounds, TraceShows, Shows;
    dl.SettledTrace();
    assert TraceShows(sp.Layers(dl)[0], Contents(r)[0], dl.vtxBuffer, dl.callbacksDataBuf);
  }

  /** Every run of legal operations on a fresh list: the list stands for the reference state the
      operations lead to, with no more commands than the operations call for. When it is not split,
      what a backend renders from the list's buffers is what the reference shows, and the command
      buffer is in order. */
  method Run(allow: bool, full: Rect, white: Vec2, ops: seq<Op>) returns (dl: DrawList, sp: Splitter)
    requires AllLegal(START, allow, full, ops)
    ensures Stands(After(START, allow, full, ops), dl, sp) && sp.Valid(dl)
    ensures sp.Commands(dl) <= 1 + Costs(START, allow, full, 0, ops)
    ensures !allow || Vertices(ops) < 0x1_0000 ==> sp.Commands(dl) <= 1 + Breaks(START, allow, full, ops)
    ensures 0x1_0000 * (sp.Commands(dl) - 1 - Breaks(START, allow, full, ops)) <= 2 * Vertices(ops)
    ensures After(START, allow, full, ops).channels <= 1 ==> Rendered(After(START, allow, full, ops), dl)
  {
    hide Next, Cost, Costs, Breaks, Vertices, After, AllLegal, Rendered;
    WindowsOpened(START, allow, full, 0, ops);
    dl := new DrawList(allow, full, white);
    sp := new Splitter();
    assert Stands(START, dl, sp);
    hide Stands;
    RunFrom(dl, sp, START, ops);
    if After(START, allow, full, ops).channels <= 1 {
      StandsRendered(After(START, allow, full, ops), dl, sp);
    }
  }
}
