/** ImDrawListSplitter: a draw list's command and index buffers are swapped out per channel
    and stitched together again, channel after channel, by Merge. */
module Splitters {
  import opened Options
  import opened DrawCommands
  import opened DrawLists

  datatype Channel = Channel(cmds: seq<DrawCmd>, idx: seq<Index>)

  // ---------------------------------------------------------------- stitching

  /** Commands whose index ranges start `d` further on. */
  function Shifted(cmds: seq<DrawCmd>, d: nat): seq<DrawCmd> {
    seq(|cmds|, k requires 0 <= k < |cmds| => cmds[k].(idxOffset := cmds[k].idxOffset + d))
  }

  /** Appending a buffer with its ranges shifted past what is there renders one after the other. */
  lemma {:induction false} AppendShifted(acc: seq<DrawCmd>, accIdx: seq<Index>, t1: seq<Event>,
                                         cmds: seq<DrawCmd>, idx: seq<Index>, t2: seq<Event>)
    requires Renders(acc, accIdx, t1) && Renders(cmds, idx, t2)
    ensures Renders(acc + Shifted(cmds, |accIdx|), accIdx + idx, t1 + t2)
  {
    if cmds == [] {
      assert acc + Shifted(cmds, |accIdx|) == acc && accIdx + idx == accIdx && t1 + t2 == t1;
    } else {
      var front, c := Init(cmds), Last(cmds);
      assert cmds == front + [c];
      assert c.End() == |idx| && (c.callback.Some? ==> c.elemCount == 0);
      hide Renders, Shifted, RenderCmd;
      RendersStep(front, c, idx, t2);
      var t :| Renders(front, idx[..c.idxOffset], t) && t2 == t + RenderCmd(c, idx);
      AppendShifted(acc, accIdx, t1, front, idx[..c.idxOffset], t);
      AppendShiftedCmd(acc + Shifted(front, |accIdx|), accIdx, t1 + t, c, idx);
      ShiftedSnoc(front, c, |accIdx|);
      AppendAssoc(acc, Shifted(front, |accIdx|), Shifted([c], |accIdx|));
      AppendAssoc(t1, t, RenderCmd(c, idx));
    }
  }

  lemma ShiftedSnoc(front: seq<DrawCmd>, c: DrawCmd, d: nat)
    ensures Shifted(front + [c], d) == Shifted(front, d) + Shifted([c], d)
  {
  }

  lemma AppendShiftedCmd(acc: seq<DrawCmd>, accIdx: seq<Index>, t: seq<Event>, c: DrawCmd, idx: seq<Index>)
    requires c.End() == |idx| && (c.callback.Some? ==> c.elemCount == 0)
    requires Renders(acc, accIdx + idx[..c.idxOffset], t)
    ensures Renders(acc + Shifted([c], |accIdx|), accIdx + idx, t + RenderCmd(c, idx))
  {
    hide Renders;
    var d := c.(idxOffset := c.idxOffset + |accIdx|);
    assert Shifted([c], |accIdx|) == [d];
    assert (accIdx + idx)[..d.idxOffset] == accIdx + idx[..c.idxOffset];
    assert (accIdx + idx)[d.idxOffset..d.End()] == idx[c.idxOffset..c.End()];
    RendersStep(acc, d, accIdx + idx, t + RenderCmd(c, idx));
  }

  lemma LastApart(front: seq<DrawCmd>, rest: seq<DrawCmd>)
    requires rest != []
    ensures front + rest == (front + Init(rest)) + [Last(rest)] && Last(front + rest) == Last(rest)
  {
  }

  /** Joining two adjacent commands in the middle of a buffer. */
  lemma {:induction false} RendersJoined(front: seq<DrawCmd>, p: DrawCmd, c: DrawCmd, rest: seq<DrawCmd>,
                                         idx: seq<Index>, trace: seq<Event>)
    requires Renders((front + [p, c]) + rest, idx, trace)
    requires p.header == c.header && p.callback.None? && c.callback.None?
    ensures Renders(front + [p.(elemCount := p.elemCount + c.elemCount)] + rest, idx, trace)
  {
    var joined := front + [p.(elemCount := p.elemCount + c.elemCount)];
    if rest == [] {
      assert (front + [p, c]) + rest == front + [p, c] && joined + rest == joined;
      RenderJoin(front, p, c, idx);
    } else {
      var some, d := Init(rest), Last(rest);
      LastApart(front + [p, c], rest);
      LastApart(joined, rest);
      assert d.End() == |idx| && (d.callback.Some? ==> d.elemCount == 0);
      hide Renders, RenderCmd;
      RendersStep(front + [p, c] + some, d, idx, trace);
      var t :| Renders(front + [p, c] + some, idx[..d.idxOffset], t) && trace == t + RenderCmd(d, idx);
      RendersJoined(front, p, c, some, idx[..d.idxOffset], t);
      RendersStep(joined + some, d, idx, trace);
    }
  }

  /** A channel without one unused trailing command. */
  function Trimmed(cmds: seq<DrawCmd>): seq<DrawCmd> {
    if cmds != [] && Last(cmds).elemCount == 0 && Last(cmds).callback.None? then Init(cmds) else cmds
  }

  /** The first command of a channel continues the last one so far. */
  predicate Joins(acc: seq<DrawCmd>, cmds: seq<DrawCmd>) {
    && acc != [] && cmds != []
    && Last(acc).header == cmds[0].header
    && Last(acc).callback.None? && cmds[0].callback.None?
  }

  /** What the commands so far become when a trimmed channel is appended ... */
  function JoinedFront(acc: seq<DrawCmd>, cmds: seq<DrawCmd>): seq<DrawCmd> {
    if Joins(acc, cmds) then Resized(acc, cmds[0].elemCount) else acc
  }

  /** ... and what is left of the channel itself. */
  function JoinedRest(acc: seq<DrawCmd>, cmds: seq<DrawCmd>): seq<DrawCmd> {
    if Joins(acc, cmds) then cmds[1..] else cmds
  }

  /** The commands so far with a channel appended behind index `start`. */
  function Stitched(acc: seq<DrawCmd>, start: nat, channel: seq<DrawCmd>): seq<DrawCmd> {
    var cmds := Trimmed(channel);
    JoinedFront(acc, cmds) + Shifted(JoinedRest(acc, cmds), start)
  }

  /** One step of Merge: the commands so far and a channel render one after the other. */
  lemma StitchStep(acc: seq<DrawCmd>, accIdx: seq<Index>, t1: seq<Event>, ch: Channel, t2: seq<Event>)
    requires Renders(acc, accIdx, t1) && Renders(ch.cmds, ch.idx, t2)
    ensures Renders(Stitched(acc, |accIdx|, ch.cmds), accIdx + ch.idx, t1 + t2)
  {
    var cmds := Trimmed(ch.cmds);
    TrimmedSame(ch, t2);
    hide Renders, Shifted, Trimmed;
    AppendShifted(acc, accIdx, t1, cmds, ch.idx, t2);
    if Joins(acc, cmds) {
      JoinStep(acc, cmds, |accIdx|, accIdx + ch.idx, t1 + t2);
    }
  }

  lemma JoinStep(acc: seq<DrawCmd>, cmds: seq<DrawCmd>, d: nat, idx: seq<Index>, trace: seq<Event>)
    requires Joins(acc, cmds) && Renders(acc + Shifted(cmds, d), idx, trace)
    ensures Renders(Resized(acc, cmds[0].elemCount) + Shifted(cmds[1..], d), idx, trace)
  {
    hide Renders, Shifted;
    JoinSplit(acc, cmds, d);
    RendersJoined(Init(acc), Last(acc), cmds[0].(idxOffset := cmds[0].idxOffset + d), Shifted(cmds[1..], d), idx,
        trace);
  }

  lemma JoinSplit(acc: seq<DrawCmd>, cmds: seq<DrawCmd>, d: nat)
    requires acc != [] && cmds != []
    ensures acc + Shifted(cmds, d) ==
            (Init(acc) + [Last(acc), cmds[0].(idxOffset := cmds[0].idxOffset + d)]) + Shifted(cmds[1..], d)
  {
  }

  lemma TrimmedSame(ch: Channel, trace: seq<Event>)
    requires Renders(ch.cmds, ch.idx, trace)
    ensures Renders(Trimmed(ch.cmds), ch.idx, trace)
  {
    if Trimmed(ch.cmds) != ch.cmds {
      DropEmptyCmd(ch.cmds, ch.idx);
    }
  }

  // ------------------------------------------------------------ channel arrays

  function FlatCmds(channels: seq<Channel>): seq<DrawCmd> {
    if channels == [] then [] else FlatCmds(Init(channels)) + Last(channels).cmds
  }

  function FlatIdx(channels: seq<Channel>): seq<Index> {
    if channels == [] then [] else FlatIdx(Init(channels)) + Last(channels).idx
  }

  /** How many commands there are when one channel changes. */
  lemma {:induction false} FlatCmdsUpdate(channels: seq<Channel>, i: nat, ch: Channel)
    requires i < |channels|
    ensures |FlatCmds(channels[i := ch])| == |FlatCmds(channels)| - |channels[i].cmds| + |ch.cmds|
  {
    if i < |channels| - 1 {
      FlatCmdsUpdate(Init(channels), i, ch);
      assert Init(channels[i := ch]) == Init(channels)[i := ch];
    } else {
      assert Init(channels[i := ch]) == Init(channels);
    }
  }

  /** How many there are in the first channel and in the others. */
  lemma {:induction false} FlatCmdsHead(channels: seq<Channel>)
    requires channels != []
    ensures |FlatCmds(channels)| == |channels[0].cmds| + |FlatCmds(channels[1..])|
  {
    if |channels| > 1 {
      FlatCmdsHead(Init(channels));
      assert Init(channels)[1..] == Init(channels[1..]);
    }
  }

  /** Only the first channel has commands. */
  lemma {:induction false} OnlyFirst(channels: seq<Channel>, first: Channel)
    requires channels != [] && forall k :: 0 <= k < |channels| ==> channels[k].cmds == []
    ensures |FlatCmds(channels[0 := first])| == |first.cmds|
  {
    assert channels[0 := first] == [first] + channels[1..];
    FlatCmdsEmpty([first], channels[1..]);
    assert FlatCmds([first]) == FlatCmds([]) + first.cmds;
  }

  lemma StitchedSize(acc: seq<DrawCmd>, start: nat, cmds: seq<DrawCmd>)
    ensures |Stitched(acc, start, cmds)| <= |acc| + |cmds|
  {
  }

  /** Channels that hold no commands. */
  lemma {:induction false} FlatCmdsEmpty(a: seq<Channel>, b: seq<Channel>)
    requires forall ch :: ch in b ==> ch.cmds == []
    ensures FlatCmds(a + b) == FlatCmds(a)
  {
    if b == [] {
      assert a + b == a;
    } else {
      assert Init(a + b) == a + Init(b);
      FlatCmdsEmpty(a, Init(b));
    }
  }

  /** Where the last command of `front` followed by the channels' commands is: -1 nowhere,
      0 in `front`, k in the k-th channel. */
  ghost predicate LastAt(front: seq<DrawCmd>, channels: seq<Channel>, at: int) {
    && -1 <= at <= |channels|
    && (at <= 0 ==> (front == [] <==> at == -1))
    && (at > 0 ==> channels[at - 1].cmds != [])
    && forall j :: 0 <= j < |channels| && j >= at ==> channels[j].cmds == []
  }

  lemma LastAtLast(front: seq<DrawCmd>, channels: seq<Channel>, at: int)
    requires LastAt(front, channels, at)
    ensures var acc := front + FlatCmds(channels);
            && (acc == [] <==> at == -1)
            && (at == 0 ==> acc == front)
            && (at > 0 ==> Last(acc) == Last(channels[at - 1].cmds))
  {
    if at <= 0 {
      FlatCmdsEmpty([], channels);
      assert [] + channels == channels;
    } else {
      FlatCmdsTail(channels, at - 1);
    }
  }

  lemma {:induction false} FlatCmdsTail(channels: seq<Channel>, k: nat)
    requires k < |channels| && forall j :: k < j < |channels| ==> channels[j].cmds == []
    ensures FlatCmds(channels) == FlatCmds(channels[..k]) + channels[k].cmds
    decreases |channels|
  {
    if k < |channels| - 1 {
      FlatCmdsTail(Init(channels), k);
      assert Init(channels)[..k] == channels[..k] && Last(channels).cmds == [];
    }
  }

  /** Lengthening that last command, wherever it is, lengthens the last command of all. */
  lemma ResizeAt(front: seq<DrawCmd>, channels: seq<Channel>, at: int, delta: nat)
    requires LastAt(front, channels, at) && at >= 0
    ensures front + FlatCmds(channels) != []
    ensures at == 0 ==> Resized(front, delta) + FlatCmds(channels) == Resized(front + FlatCmds(channels), delta)
    ensures at > 0 ==>
              var k := at - 1;
              front + FlatCmds(channels[k := channels[k].(cmds := Resized(channels[k].cmds, delta))]) ==
              Resized(front + FlatCmds(channels), delta)
  {
    LastAtLast(front, channels, at);
    if at == 0 {
      FlatCmdsEmpty([], channels);
      assert [] + channels == channels;
    } else {
      var k := at - 1;
      var channels' := channels[k := channels[k].(cmds := Resized(channels[k].cmds, delta))];
      FlatCmdsTail(channels, k);
      FlatCmdsTail(channels', k);
      assert channels'[..k] == channels[..k];
    }
  }

  lemma {:induction false} FlatIdxSame(a: seq<Channel>, b: seq<Channel>)
    requires |a| == |b| && forall k :: 0 <= k < |a| ==> a[k].idx == b[k].idx
    ensures FlatIdx(a) == FlatIdx(b)
  {
    if a != [] {
      FlatIdxSame(Init(a), Init(b));
    }
  }

  // ------------------------------------------------------------------- layers

  ghost predicate ChannelOk(ch: Channel) {
    && Chained(ch.cmds, |ch.idx|)
    && (ch.cmds != [] ==> Last(ch.cmds).callback.None?)
  }

  ghost function ChannelTrace(ch: Channel): (trace: seq<Event>)
    requires ChannelOk(ch)
    ensures Renders(ch.cmds, ch.idx, trace)
  {
    ChainedInBounds(ch.cmds, |ch.idx|);
    Render(ch.cmds, ch.idx)
  }

  /** What each channel renders; the current one lives in the draw list. */
  ghost function LayersOf(channels: seq<Channel>, current: nat, trace: seq<Event>): seq<seq<Event>>
    requires forall k :: 0 <= k < |channels| && k != current ==> ChannelOk(channels[k])
  {
    seq(|channels|, k requires 0 <= k < |channels| => if k == current then trace else ChannelTrace(channels[k]))
  }

  /** Putting channel `current` aside and taking up channel `next` shows the same layers. */
  lemma LayersSwitch(channels: seq<Channel>, current: nat, trace: seq<Event>, saved: Channel, next: nat)
    requires current < |channels| && next < |channels| && next != current
    requires forall k :: 0 <= k < |channels| && k != current ==> ChannelOk(channels[k])
    requires ChannelOk(saved) && ChannelTrace(saved) == trace
    ensures var channels' := channels[current := saved];
            && (forall k :: 0 <= k < |channels| && k != next ==> ChannelOk(channels'[k]))
            && LayersOf(channels', next, ChannelTrace(channels[next])) == LayersOf(channels, current, trace)
  {
  }

  function Flatten<T>(layers: seq<seq<T>>): seq<T> {
    if layers == [] then [] else Flatten(Init(layers)) + Last(layers)
  }

  /** A trimmed channel still has its ranges in a row from 0 to the size of its indices. */
  lemma TrimmedRanges(ch: Channel)
    requires ChannelOk(ch)
    ensures var cmds := Trimmed(ch.cmds);
            && (forall k :: 0 < k < |cmds| ==> cmds[k].idxOffset == cmds[k - 1].End())
            && (if cmds == [] then |ch.idx| == 0 else cmds[0].idxOffset == 0 && Last(cmds).End() == |ch.idx|)
  {
    TrimmedSame(ch, ChannelTrace(ch));
    if Trimmed(ch.cmds) != [] {
      ChainedRanges(Trimmed(ch.cmds), |ch.idx|);
    }
  }

  /** So does what is left of it after joining, where `end` is the offset Merge has reached. */
  lemma RestRanges(acc: seq<DrawCmd>, ch: Channel)
    requires ChannelOk(ch)
    ensures var cmds := Trimmed(ch.cmds);
            var rest := JoinedRest(acc, cmds);
            var end := if Joins(acc, cmds) then cmds[0].elemCount else 0;
            && (forall k :: 0 < k < |rest| ==> rest[k].idxOffset == rest[k - 1].End())
            && (if rest == [] then |ch.idx| == end else rest[0].idxOffset == end && Last(rest).End() == |ch.idx|)
  {
    TrimmedRanges(ch);
  }

  lemma UpTo(channels: seq<Channel>, i: nat, ch: Channel)
    requires 1 <= i < |channels|
    ensures channels[i := ch][1..i + 1] == channels[1..i] + [ch]
  {
    assert channels[i := ch][..i] == channels[..i];
  }

  /** Channel `i` takes its place behind the channels before it. */
  lemma TakeIn(front: seq<DrawCmd>, channels: seq<Channel>, i: nat, ch: Channel, at: int)
    requires 1 <= i < |channels| && LastAt(front, channels[1..i], at)
    ensures LastAt(front, channels[i := ch][1..i + 1], if |ch.cmds| > 0 then i else at)
    ensures front + FlatCmds(channels[i := ch][1..i + 1]) == front + FlatCmds(channels[1..i]) + ch.cmds
  {
    var before := channels[1..i];
    UpTo(channels, i, ch);
    assert Init(before + [ch]) == before;
    AppendAssoc(front, FlatCmds(before), ch.cmds);
  }

  ghost function TracesOf(channels: seq<Channel>): seq<seq<Event>>
    requires forall k :: 0 <= k < |channels| ==> ChannelOk(channels[k])
  {
    seq(|channels|, k requires 0 <= k < |channels| => ChannelTrace(channels[k]))
  }

  lemma RendersEnd(cmds: seq<DrawCmd>, idx: seq<Index>, trace: seq<Event>)
    requires Renders(cmds, idx, trace)
    ensures |idx| == if |cmds| > 0 then Last(cmds).End() else 0
  {
  }

  lemma StitchStart(cmds: seq<DrawCmd>, idx: seq<Index>, channels: seq<Channel>, trace: seq<Event>)
    requires |channels| >= 1 && Renders(cmds, idx, trace)
    ensures LastAt(cmds, channels[1..1], if |cmds| > 0 then 0 else -1)
    ensures idx == idx + FlatIdx(channels[1..1]) && trace == trace + Flatten(TracesOf(channels[1..1]))
    ensures Renders(cmds + FlatCmds(channels[1..1]), idx, trace) && FlatCmds(channels[1..1]) == []
  {
    assert channels[1..1] == [] && TracesOf([]) == [];
    assert cmds + [] == cmds;
  }

  lemma InitTraces(chans: seq<Channel>)
    requires chans != [] && forall ch :: ch in chans ==> ChannelOk(ch)
    ensures (forall ch :: ch in Init(chans) ==> ChannelOk(ch)) && Init(TracesOf(chans)) == TracesOf(Init(chans))
    ensures Last(TracesOf(chans)) == ChannelTrace(Last(chans))
  {
    var a, b := Init(TracesOf(chans)), TracesOf(Init(chans));
    forall k | 0 <= k < |chans| - 1 ensures a[k] == b[k] {
      assert Init(chans)[k] == chans[k];
    }
  }

  lemma UpToNext(channels: seq<Channel>, i: nat)
    requires 1 <= i < |channels|
    ensures Init(channels[1..i + 1]) == channels[1..i] && Last(channels[1..i + 1]) == channels[i]
  {
    assert channels[1..i + 1][..i - 1] == channels[1..i];
  }

  /** One channel more behind what is there. */
  lemma FlatNext(cmds: seq<DrawCmd>, idx: seq<Index>, channels: seq<Channel>, i: nat)
    requires 1 <= i < |channels|
    ensures cmds + FlatCmds(channels[1..i + 1]) == cmds + FlatCmds(channels[1..i]) + channels[i].cmds
    ensures idx + FlatIdx(channels[1..i + 1]) == idx + FlatIdx(channels[1..i]) + channels[i].idx
  {
    UpToNext(channels, i);
    AppendAssoc(cmds, FlatCmds(channels[1..i]), channels[i].cmds);
    AppendAssoc(idx, FlatIdx(channels[1..i]), channels[i].idx);
  }

  lemma StitchNext(idx: seq<Index>, channels: seq<Channel>, i: nat, t0: seq<Event>)
    requires 1 <= i < |channels| && forall k :: 1 <= k <= i ==> ChannelOk(channels[k])
    ensures idx + FlatIdx(channels[1..i + 1]) == idx + FlatIdx(channels[1..i]) + channels[i].idx
    ensures t0 + Flatten(TracesOf(channels[1..i + 1])) ==
        t0 + Flatten(TracesOf(channels[1..i])) + ChannelTrace(channels[i])
    ensures |FlatCmds(channels[1..i + 1])| == |FlatCmds(channels[1..i])| + |channels[i].cmds|
  {
    var chans := channels[1..i + 1];
    UpToNext(channels, i);
    InitTraces(chans);
    AppendAssoc(idx, FlatIdx(Init(chans)), channels[i].idx);
    AppendAssoc(t0, Flatten(TracesOf(Init(chans))), ChannelTrace(channels[i]));
  }

  lemma {:induction false} FlattenCons<T>(head: seq<T>, tail: seq<seq<T>>)
    ensures Flatten([head] + tail) == head + Flatten(tail)
  {
    if tail == [] {
      assert [head] + tail == [head] && Init([head]) == [];
    } else {
      assert Init([head] + tail) == [head] + Init(tail);
      FlattenCons(head, Init(tail));
      AppendAssoc(head, Flatten(Init(tail)), Last(tail));
    }
  }

  lemma FlattenHead(channels: seq<Channel>, trace: seq<Event>)
    requires channels != [] && forall k :: 1 <= k < |channels| ==> ChannelOk(channels[k])
    ensures Flatten(LayersOf(channels, 0, trace)) == trace + Flatten(TracesOf(channels[1..]))
  {
    hide ChannelOk, ChannelTrace, Flatten;
    FlattenCons(trace, TracesOf(channels[1..]));
    var layers, want := LayersOf(channels, 0, trace), [trace] + TracesOf(channels[1..]);
    forall k | 0 <= k < |channels| ensures layers[k] == want[k] {
      assert k > 0 ==> channels[1..][k - 1] == channels[k];
    }
    assert layers == want;
  }

  // ------------------------------------------------------ which commands join

  /** A command as it was in its channel. */
  datatype Piece = Piece(channel: nat, cmd: DrawCmd)

  /** Neighbours of different channels under one header, none of them a callback. */
  predicate Touching(a: Piece, b: Piece) {
    a.channel != b.channel && a.cmd.header == b.cmd.header && a.cmd.callback.None? && b.cmd.callback.None?
  }

  function Elements(ps: seq<Piece>): nat {
    if ps == [] then 0 else Elements(Init(ps)) + Last(ps).cmd.elemCount
  }

  /** `c` draws what the pieces draw, which touch one another. */
  predicate Whole(c: DrawCmd, ps: seq<Piece>) {
    && ps != [] && c.elemCount == Elements(ps)
    && (forall k :: 0 <= k < |ps| ==> ps[k].cmd.header == c.header && ps[k].cmd.callback == c.callback)
    && forall k :: 0 < k < |ps| ==> Touching(ps[k - 1], ps[k])
  }

  /** Every command is made of some pieces, and where one ends and the next begins they do not touch. */
  predicate Gathers(cmds: seq<DrawCmd>, parts: seq<seq<Piece>>) {
    && |cmds| == |parts| && (forall j :: 0 <= j < |parts| ==> Whole(cmds[j], parts[j]))
    && forall j :: 0 < j < |parts| ==> !Touching(Last(parts[j - 1]), parts[j][0])
  }

  function Tags(k: nat, cmds: seq<DrawCmd>): seq<Piece> {
    seq(|cmds|, i requires 0 <= i < |cmds| => Piece(k, cmds[i]))
  }

  /** The commands of all channels in order. */
  function PiecesOf(lists: seq<seq<DrawCmd>>): seq<Piece> {
    if lists == [] then [] else PiecesOf(Init(lists)) + Tags(|lists| - 1, Last(lists))
  }

  function Singles(k: nat, cmds: seq<DrawCmd>): seq<seq<Piece>> {
    seq(|cmds|, i requires 0 <= i < |cmds| => [Piece(k, cmds[i])])
  }

  lemma {:induction false} FlattenConcat<T>(a: seq<seq<T>>, b: seq<seq<T>>)
    ensures Flatten(a + b) == Flatten(a) + Flatten(b)
  {
    if b == [] {
      assert a + b == a;
    } else {
      assert Init(a + b) == a + Init(b);
      FlattenConcat(a, Init(b));
      AppendAssoc(Flatten(a), Flatten(Init(b)), Last(b));
    }
  }

  lemma {:induction false} FlattenSingles(k: nat, cmds: seq<DrawCmd>)
    ensures Flatten(Singles(k, cmds)) == Tags(k, cmds)
  {
    if cmds != [] {
      assert Init(Singles(k, cmds)) == Singles(k, Init(cmds));
      FlattenSingles(k, Init(cmds));
      assert Tags(k, cmds) == Tags(k, Init(cmds)) + [Piece(k, Last(cmds))];
    }
  }

  lemma OnePiece(k: nat, c: DrawCmd)
    ensures Whole(c, [Piece(k, c)])
  {
    assert Init([Piece(k, c)]) == [];
  }

  lemma GathersSingles(k: nat, cmds: seq<DrawCmd>)
    ensures Gathers(cmds, Singles(k, cmds)) && Flatten(Singles(k, cmds)) == Tags(k, cmds)
  {
    forall j | 0 <= j < |cmds| ensures Whole(cmds[j], Singles(k, cmds)[j]) {
      OnePiece(k, cmds[j]);
    }
    FlattenSingles(k, cmds);
  }

  /** The pieces of the commands so far once channel `k` is stitched on. */
  function Extended(acc: seq<DrawCmd>, parts: seq<seq<Piece>>, k: nat, cmds: seq<DrawCmd>): seq<seq<Piece>>
    requires |acc| == |parts|
  {
    if Joins(acc, cmds) then (Init(parts) + [Last(parts) + [Piece(k, cmds[0])]]) + Singles(k, cmds[1..])
    else parts + Singles(k, cmds)
  }

  lemma WholeMore(c: DrawCmd, ps: seq<Piece>, p: Piece)
    requires Whole(c, ps) && Touching(Last(ps), p)
    ensures Whole(c.(elemCount := c.elemCount + p.cmd.elemCount), ps + [p])
  {
    assert Init(ps + [p]) == ps;
  }

  /** Commands differing only in where their indices start. */
  predicate Alike(a: seq<DrawCmd>, b: seq<DrawCmd>) {
    |a| == |b| && forall k :: 0 <= k < |a| ==> a[k].(idxOffset := 0) == b[k].(idxOffset := 0)
  }

  lemma GathersBehind(a: seq<DrawCmd>, parts: seq<seq<Piece>>, k: nat, cmds: seq<DrawCmd>, b: seq<DrawCmd>)
    requires Gathers(a, parts) && Alike(cmds, b)
    requires parts != [] && cmds != [] ==> !Touching(Last(Last(parts)), Piece(k, cmds[0]))
    ensures Gathers(a + b, parts + Singles(k, cmds))
  {
    var more := Singles(k, cmds);
    forall j | 0 <= j < |a + b| ensures Whole((a + b)[j], (parts + more)[j]) {
      if j >= |a| {
        OnePiece(k, b[j - |a|]);
        OnePiece(k, cmds[j - |a|]);
      }
    }
  }

  lemma StitchedGathers(acc: seq<DrawCmd>, start: nat, parts: seq<seq<Piece>>, k: nat, channel: seq<DrawCmd>)
    requires Gathers(acc, parts) && (parts != [] ==> Last(Last(parts)).channel < k)
    ensures var cmds := Trimmed(channel);
            var parts' := Extended(acc, parts, k, cmds);
            && Gathers(Stitched(acc, start, channel), parts')
            && Flatten(parts') == Flatten(parts) + Tags(k, cmds)
            && (parts' != [] ==> Last(Last(parts')).channel < k + 1)
  {
    hide Whole, Trimmed, Flatten;
    var cmds := Trimmed(channel);
    assert acc != [] ==> Whole(Last(acc), Last(parts));
    if Joins(acc, cmds) {
      WholeParts(Last(acc), Last(parts));
      JoinedGathers(acc, parts, Piece(k, cmds[0]));
      GathersBehind(Resized(acc, cmds[0].elemCount), Init(parts) + [Last(parts) + [Piece(k, cmds[0])]], k, cmds[1..],
          Shifted(cmds[1..], start));
      ExtendedFlat(parts, k, cmds);
    } else {
      if acc != [] {
        WholeParts(Last(acc), Last(parts));
      }
      GathersBehind(acc, parts, k, cmds, Shifted(cmds, start));
      FlattenConcat(parts, Singles(k, cmds));
      FlattenSingles(k, cmds);
    }
  }

  lemma WholeParts(c: DrawCmd, ps: seq<Piece>)
    requires Whole(c, ps)
    ensures ps != [] && Last(ps).cmd.header == c.header && Last(ps).cmd.callback == c.callback
  {
  }

  lemma JoinedGathers(acc: seq<DrawCmd>, parts: seq<seq<Piece>>, p: Piece)
    requires Gathers(acc, parts) && parts != [] && Touching(Last(Last(parts)), p)
    ensures Gathers(Resized(acc, p.cmd.elemCount), Init(parts) + [Last(parts) + [p]])
  {
    hide Whole, Touching;
    WholeMore(Last(acc), Last(parts), p);
    var parts' := Init(parts) + [Last(parts) + [p]];
    forall j | 0 <= j < |parts| ensures parts[j] != [] && parts'[j] != [] && parts'[j][0] == parts[j][0] {
      WholeParts(acc[j], parts[j]);
    }
  }

  lemma ExtendedFlat(parts: seq<seq<Piece>>, k: nat, cmds: seq<DrawCmd>)
    requires parts != [] && cmds != []
    ensures Flatten((Init(parts) + [Last(parts) + [Piece(k, cmds[0])]]) + Singles(k, cmds[1..])) ==
            Flatten(parts) + Tags(k, cmds)
  {
    var p := Piece(k, cmds[0]);
    var joined := Init(parts) + [Last(parts) + [p]];
    FlattenConcat(joined, Singles(k, cmds[1..]));
    FlattenSingles(k, cmds[1..]);
    assert Init(joined) == Init(parts) && Last(joined) == Last(parts) + [p];
    AppendAssoc(Flatten(Init(parts)), Last(parts), [p]);
    assert Tags(k, cmds) == [p] + Tags(k, cmds[1..]);
    AppendAssoc(Flatten(parts), [p], Tags(k, cmds[1..]));
  }

  /** The commands that are left when all unused ones at the end are dropped. */
  function Used(cmds: seq<DrawCmd>): seq<DrawCmd> {
    if cmds != [] && Last(cmds).elemCount == 0 && Last(cmds).callback.None? then Used(Init(cmds)) else cmds
  }

  lemma {:induction false} UsedIs(cmds: seq<DrawCmd>, kept: seq<DrawCmd>)
    requires kept <= cmds && (kept == [] || Last(kept).elemCount != 0 || Last(kept).callback.Some?)
    requires forall i :: |kept| <= i < |cmds| ==> cmds[i].elemCount == 0 && cmds[i].callback.None?
    ensures Used(cmds) == kept
  {
    if |kept| < |cmds| {
      UsedIs(Init(cmds), kept);
    }
  }

  lemma UsedHeader(cmds: seq<DrawCmd>, h: Header, total: nat)
    requires cmds != [] ==> Last(cmds).callback.None?
    ensures Used(HeaderChanged(cmds, h, total)) == Used(cmds)
  {
    var after := HeaderChanged(cmds, h, total);
    if after != cmds {
      assert Init(after) == cmds || (cmds != [] && Init(after) == Init(cmds));
    }
  }

  /** What each channel brings into a merge. */
  function Brought(lists: seq<seq<DrawCmd>>): seq<seq<DrawCmd>> {
    seq(|lists|, k requires 0 <= k < |lists| => if k == 0 then Used(lists[0]) else Trimmed(lists[k]))
  }

  function ListsOf(channels: seq<Channel>): seq<seq<DrawCmd>> {
    seq(|channels|, k requires 0 <= k < |channels| => channels[k].cmds)
  }

  /** A merged buffer once it ends in an open command under the current header. */
  function Closed(cmds: seq<DrawCmd>, h: Header, total: nat): seq<DrawCmd> {
    if cmds == [] || Last(cmds).callback.Some? then cmds + [NewCmd(h, total)]
    else if Last(cmds).elemCount == 0 then Init(cmds) + [Last(cmds).(header := h)]
    else if Last(cmds).header != h then cmds + [NewCmd(h, total)]
    else cmds
  }

  /** When every channel brings one drawn command under the current header, merging leaves one. */
  lemma OneCommand(lists: seq<seq<DrawCmd>>, parts: seq<seq<Piece>>, joined: seq<DrawCmd>, h: Header, total: nat)
    requires Gathers(joined, parts) && Flatten(parts) == PiecesOf(lists) && lists != []
    requires forall k :: 0 <= k < |lists| ==>
               |lists[k]| == 1 && lists[k][0].header == h && lists[k][0].callback.None? && lists[k][0].elemCount > 0
    ensures |joined| == 1 && Closed(joined, h, total) == joined
    ensures joined[0].header == h && joined[0].callback.None? && joined[0].elemCount == Elements(PiecesOf(lists))
  {
    hide Whole, Touching, PiecesOf, Elements;
    PiecesSingle(lists, h);
    AllTouch(lists, h);
    assert Flatten<Piece>([]) == [];
    if |parts| > 1 {
      PartsMeet(joined, parts);
    } else if |parts| == 1 {
      OnePart(joined, parts);
    }
  }

  lemma AllTouch(lists: seq<seq<DrawCmd>>, h: Header)
    requires forall k :: 0 <= k < |lists| ==>
               |lists[k]| == 1 && lists[k][0].header == h && lists[k][0].callback.None? && lists[k][0].elemCount > 0
    ensures var ps := PiecesOf(lists); forall i :: 0 < i < |ps| ==> Touching(ps[i - 1], ps[i])
  {
    hide PiecesOf;
    PiecesSingle(lists, h);
  }

  lemma OnePart(cmds: seq<DrawCmd>, parts: seq<seq<Piece>>)
    requires Gathers(cmds, parts) && |parts| == 1
    ensures |cmds| == 1 && Flatten(parts) != []
    ensures cmds[0].header == Last(Flatten(parts)).cmd.header && cmds[0].callback == Last(Flatten(parts)).cmd.callback
    ensures cmds[0].elemCount == Elements(Flatten(parts)) >= Last(Flatten(parts)).cmd.elemCount
  {
    hide Whole, Elements;
    assert Init(parts) == [] && Flatten(parts) == [] + parts[0] == parts[0];
    assert Whole(cmds[0], parts[0]);
    WholeParts(cmds[0], parts[0]);
    WholeSize(cmds[0], parts[0]);
  }

  lemma WholeSize(c: DrawCmd, ps: seq<Piece>)
    requires Whole(c, ps)
    ensures c.elemCount == Elements(ps) && Elements(ps) >= Last(ps).cmd.elemCount
  {
  }

  lemma PartsMeet(cmds: seq<DrawCmd>, parts: seq<seq<Piece>>)
    requires Gathers(cmds, parts) && |parts| > 1
    ensures exists i :: 0 < i < |Flatten(parts)| && !Touching(Flatten(parts)[i - 1], Flatten(parts)[i])
  {
    hide Whole, Touching;
    WholeParts(cmds[0], parts[0]);
    WholeParts(cmds[1], parts[1]);
    assert parts == [parts[0]] + ([parts[1]] + parts[2..]);
    FlattenCons(parts[0], [parts[1]] + parts[2..]);
    FlattenCons(parts[1], parts[2..]);
    var i := |parts[0]|;
    assert Flatten(parts)[i - 1] == Last(parts[0]) && Flatten(parts)[i] == parts[1][0];
  }

  lemma {:induction false} PiecesSingle(lists: seq<seq<DrawCmd>>, h: Header)
    requires forall k :: 0 <= k < |lists| ==>
               |lists[k]| == 1 && lists[k][0].header == h && lists[k][0].callback.None? && lists[k][0].elemCount > 0
    ensures var ps := PiecesOf(lists);
            && |ps| == |lists|
            && (forall k :: 0 <= k < |ps| ==>
                  ps[k].channel == k && ps[k].cmd.header == h && ps[k].cmd.callback.None? && ps[k].cmd.elemCount > 0)
  {
    if lists != [] {
      PiecesSingle(Init(lists), h);
    }
  }

  function TrimmedLists(channels: seq<Channel>): seq<seq<DrawCmd>> {
    seq(|channels|, k requires 0 <= k < |channels| => Trimmed(channels[k].cmds))
  }

  lemma StartParts(front: seq<DrawCmd>, none: seq<Channel>) returns (parts: seq<seq<Piece>>)
    requires |none| == 0
    ensures Gathers(front + FlatCmds(none), parts) && Flatten(parts) == PiecesOf([front] + TrimmedLists(none))
    ensures parts != [] ==> Last(parts) != [] && Last(Last(parts)).channel < 1
  {
    parts := Singles(0, front);
    GathersSingles(0, front);
    assert front + FlatCmds(none) == front;
    assert [front] + TrimmedLists(none) == [front] && Init([front]) == [];
    assert PiecesOf([front]) == [] + Tags(0, front);
  }

  lemma NextParts(front: seq<DrawCmd>, chans: seq<Channel>, i: nat, acc: seq<DrawCmd>, start: nat,
      parts: seq<seq<Piece>>) returns (more: seq<seq<Piece>>)
    requires 1 <= i < |chans| && Gathers(acc, parts)
    requires Flatten(parts) == PiecesOf([front] + TrimmedLists(chans[1..i]))
    requires parts != [] ==> Last(parts) != [] && Last(Last(parts)).channel < i
    ensures Gathers(Stitched(acc, start, chans[i].cmds), more)
    ensures Flatten(more) == PiecesOf([front] + TrimmedLists(chans[1..i + 1]))
    ensures more != [] ==> Last(more) != [] && Last(Last(more)).channel < i + 1
  {
    hide Gathers, Stitched, PiecesOf, Trimmed, Extended;
    assert |acc| == |parts| by { GathersSize(acc, parts); }
    StitchedGathers(acc, start, parts, i, chans[i].cmds);
    more := Extended(acc, parts, i, Trimmed(chans[i].cmds));
    GathersSize(Stitched(acc, start, chans[i].cmds), more);
    var lists := [front] + TrimmedLists(chans[1..i]);
    assert [front] + TrimmedLists(chans[1..i + 1]) == lists + [Trimmed(chans[i].cmds)];
    PiecesMore(lists, Trimmed(chans[i].cmds));
  }

  lemma GathersSize(cmds: seq<DrawCmd>, parts: seq<seq<Piece>>)
    requires Gathers(cmds, parts)
    ensures |cmds| == |parts| && forall j :: 0 <= j < |parts| ==> parts[j] != []
  {
    forall j | 0 <= j < |parts| ensures parts[j] != [] {
      assert Whole(cmds[j], parts[j]);
    }
  }

  lemma ListsBrought(saved: seq<Channel>, channels: seq<Channel>, count: nat, first: seq<DrawCmd>)
    requires 1 <= count <= |channels| && |saved| == count && saved[1..] == channels[1..count]
    requires first == Used(saved[0].cmds)
    ensures [first] + TrimmedLists(channels[1..count]) == Brought(ListsOf(saved))
  {
    hide Used, Trimmed;
    forall k | 1 <= k < count ensures channels[1..count][k - 1] == saved[k] {
      assert saved[1..][k - 1] == saved[k];
    }
  }

  lemma PiecesMore(lists: seq<seq<DrawCmd>>, cmds: seq<DrawCmd>)
    ensures PiecesOf(lists + [cmds]) == PiecesOf(lists) + Tags(|lists|, cmds)
  {
    assert Init(lists + [cmds]) == lists;
  }

  class Splitter {
    var current: nat
    var count: nat
    var channels: seq<Channel>

    constructor ()
      ensures current == 0 && count == 0 && channels == []
    {
      current, count, channels := 0, 0, [];
    }

    /** The draw list is ready for primitives and every channel put aside is complete. */
    ghost predicate Valid(dl: DrawList)
      reads this, dl
    {
      && dl.Valid() && dl.Settled()
      && (count <= 1 ==> current == 0)
      && (count > 1 ==>
            && current < count <= |channels|
            && forall k :: 0 <= k < count && k != current ==> ChannelOk(channels[k]))
    }

    ghost function Layers(dl: DrawList): seq<seq<Event>>
      requires Valid(dl)
      reads this, dl
    {
      if count <= 1 then [dl.Trace()] else LayersOf(channels[..count], current, dl.Trace())
    }

    /** How many commands the draw list and the channels put aside hold. */
    ghost function Commands(dl: DrawList): nat
      requires Valid(dl)
      reads this, dl
    {
      if count <= 1 then |dl.cmdBuffer|
          else |FlatCmds(channels[..count][current := Channel(dl.cmdBuffer, dl.idxBuffer)])|
    }

    /** The commands of every channel. */
    ghost function Lists(dl: DrawList): seq<seq<DrawCmd>>
      requires Valid(dl)
      reads this, dl
    {
      if count <= 1 then [dl.cmdBuffer]
          else ListsOf(channels[..count][current := Channel(dl.cmdBuffer, dl.idxBuffer)])
    }

    /** Forgets the channels but keeps their storage. */
    method Clear()
      modifies this
      ensures current == 0 && count == 1 && channels == old(channels)
    {
      current, count := 0, 1;
    }

    /** Opens `n` channels; the draw list itself becomes channel 0. */
    method Split(dl: DrawList, n: nat)
      requires Valid(dl) && current == 0 && count <= 1 && n >= 1
      modifies this
      ensures Valid(dl) && count == n && current == 0
      ensures Layers(dl) == [dl.Trace()] + seq(n - 1, _ => [])
      ensures Commands(dl) == |dl.cmdBuffer| && |channels| == if |old(channels)| < n then n else |old(channels)|
    {
      var oldCount := |channels|;
      if oldCount < n {
        var more := Uninitialised(n - oldCount);
        channels := channels + more;
      }
      count := n;
      channels := channels[0 := Channel([], [])];
      for i := 1 to n
        invariant n <= |channels| && count == n && current == 0
        invariant |channels| == if oldCount < n then n else oldCount
        invariant forall k :: 0 <= k < i ==> channels[k] == Channel([], [])
      {
        channels := channels[i := Channel([], [])];
      }
      assert forall k :: 0 <= k < n ==> channels[..n][k] == Channel([], []);
      assert ChannelTrace(Channel([], [])) == [];
      if n > 1 {
        OnlyFirst(channels[..n], Channel(dl.cmdBuffer, dl.idxBuffer));
      }
    }

    /** Makes the last command of the draw list carry the current header. */
    method MatchHeader(dl: DrawList)
      requires Chained(dl.cmdBuffer, |dl.idxBuffer|) && dl.idxWritePtr == |dl.idxBuffer|
      requires dl.cmdBuffer != [] ==> Last(dl.cmdBuffer).callback.None?
      requires dl.vtxWritePtr == |dl.vtxBuffer| && dl.cmdHeader.vtxOffset + dl.vtxCurrentIdx == dl.vtxWritePtr
      modifies dl`cmdBuffer
      ensures dl.Valid() && dl.Settled()
      ensures dl.cmdBuffer == HeaderChanged(old(dl.cmdBuffer), dl.cmdHeader, |dl.idxBuffer|)
      ensures forall trace :: Renders(old(dl.cmdBuffer), dl.idxBuffer, trace) ==> dl.Trace() == trace
    {
      HeaderChangeKeepsRendering(dl.cmdBuffer, dl.cmdHeader, dl.idxBuffer);
      hide Render, Chained;
      if |dl.cmdBuffer| == 0 {
        dl.AddDrawCmd();
      } else if Last(dl.cmdBuffer).elemCount == 0 {
        dl.cmdBuffer := Init(dl.cmdBuffer) + [Last(dl.cmdBuffer).(header := dl.cmdHeader)];
      } else if Last(dl.cmdBuffer).header != dl.cmdHeader {
        dl.AddDrawCmd();
      }
      dl.SettledTrace();
    }

    /** The draw list now holds channel `ch`; once its header matches, it renders the same. */
    method TakeUp(dl: DrawList, ghost ch: Channel)
      requires ChannelOk(ch) && dl.cmdBuffer == ch.cmds && dl.idxBuffer == ch.idx && dl.idxWritePtr == |ch.idx|
      requires dl.vtxWritePtr == |dl.vtxBuffer| && dl.cmdHeader.vtxOffset + dl.vtxCurrentIdx == dl.vtxWritePtr
      modifies dl`cmdBuffer
      ensures dl.Valid() && dl.Settled() && dl.Trace() == ChannelTrace(ch)
      ensures dl.cmdBuffer == HeaderChanged(ch.cmds, dl.cmdHeader, |ch.idx|)
    {
      MatchHeader(dl);
    }

    method Swap(dl: DrawList, idx: nat)
      requires current < |channels| && idx < |channels|
      modifies this`current, this`channels, dl`cmdBuffer, dl`idxBuffer, dl`idxWritePtr
      ensures current == idx && channels == old(channels)[old(current) := Channel(old(dl.cmdBuffer), old(dl.idxBuffer))]
      ensures dl.cmdBuffer == channels[idx].cmds && dl.idxBuffer == channels[idx].idx
        && dl.idxWritePtr == |dl.idxBuffer|
    {
      channels := channels[current := Channel(dl.cmdBuffer, dl.idxBuffer)];
      current := idx;
      dl.cmdBuffer := channels[idx].cmds;
      dl.idxBuffer := channels[idx].idx;
      dl.idxWritePtr := |dl.idxBuffer|;
    }

    /** Puts the current channel's buffers aside and takes up those of channel `idx`. */
    method SetCurrentChannel(dl: DrawList, idx: nat)
      requires Valid(dl) && (idx < count || idx == current)
      modifies this`current, this`channels, dl`cmdBuffer, dl`idxBuffer, dl`idxWritePtr
      ensures Valid(dl) && current == idx && count == old(count)
      ensures Layers(dl) == old(Layers(dl))
      ensures Commands(dl) <= old(Commands(dl)) + if idx == old(current) then 0 else 1
      ensures if idx == old(current) then dl.cmdBuffer == old(dl.cmdBuffer) && dl.idxBuffer == old(dl.idxBuffer)
        && channels == old(channels)
              else
                && dl.cmdBuffer == HeaderChanged(old(channels)[idx].cmds, dl.cmdHeader, |old(channels)[idx].idx|)
                && dl.idxBuffer == old(channels)[idx].idx
                && channels == old(channels)[old(current) := Channel(old(dl.cmdBuffer), old(dl.idxBuffer))]
    {
      hide Render, Chained, ChannelOk, ChannelTrace, LayersOf, Covers, TraceOf, FlatCmds;
      if current == idx {
        return;
      }
      ghost var saved := Channel(dl.cmdBuffer, dl.idxBuffer);
      ghost var was := channels[..count][current := saved];
      SavedOk(dl);
      LayersSwitch(channels[..count], current, dl.Trace(), saved, idx);
      PrefixUpdate(channels, current, saved, count);
      Swap(dl, idx);
      TakeUp(dl, channels[idx]);
      FlatCmdsUpdate(was, idx, Channel(dl.cmdBuffer, dl.idxBuffer));
    }

    lemma PrefixUpdate(channels: seq<Channel>, i: nat, ch: Channel, n: nat)
      requires i < n <= |channels|
      ensures channels[i := ch][..n] == channels[..n][i := ch]
    {
    }

    /** The draw list's buffers make a channel. */
    lemma SavedOk(dl: DrawList)
      requires dl.Valid() && dl.Settled()
      ensures ChannelOk(Channel(dl.cmdBuffer, dl.idxBuffer))
        && ChannelTrace(Channel(dl.cmdBuffer, dl.idxBuffer)) == dl.Trace()
    {
      hide Render, Chained;
      dl.SettledTrace();
    }

    /** Rewrites the index offsets of a channel's commands to follow on from `start`. */
    method Rebase(cmds: seq<DrawCmd>, start: nat, ghost d: nat) returns (moved: seq<DrawCmd>, end: nat)
      requires cmds != [] ==> cmds[0].idxOffset + d == start
      requires forall k :: 0 < k < |cmds| ==> cmds[k].idxOffset == cmds[k - 1].End()
      ensures moved == Shifted(cmds, d)
      ensures end == if cmds == [] then start else Last(cmds).End() + d
    {
      moved, end := cmds, start;
      for k := 0 to |cmds|
        invariant |moved| == |cmds|
        invariant forall j :: 0 <= j < k ==> moved[j] == cmds[j].(idxOffset := cmds[j].idxOffset + d)
        invariant forall j :: k <= j < |cmds| ==> moved[j] == cmds[j]
        invariant end == if k == 0 then start else cmds[k - 1].End() + d
      {
        moved := moved[k := moved[k].(idxOffset := end)];
        end := end + moved[k].elemCount;
      }
    }

    /** Adds `delta` elements to the last command so far, in the draw list or in a channel. */
    method ExtendLast(dl: DrawList, i: nat, lastCh: int, delta: nat)
      requires 1 <= i <= |channels| && LastAt(dl.cmdBuffer, channels[1..i], lastCh) && lastCh >= 0
      modifies this`channels, dl`cmdBuffer
      ensures |channels| == |old(channels)| && forall k :: i <= k < |channels| ==> channels[k] == old(channels)[k]
      ensures forall k :: 0 <= k < |channels| ==> channels[k].idx == old(channels)[k].idx
      ensures LastAt(dl.cmdBuffer, channels[1..i], lastCh)
      ensures old(dl.cmdBuffer + FlatCmds(channels[1..i])) != []
      ensures dl.cmdBuffer + FlatCmds(channels[1..i]) == Resized(old(dl.cmdBuffer + FlatCmds(channels[1..i])), delta)
    {
      hide FlatCmds;
      ResizeAt(dl.cmdBuffer, channels[1..i], lastCh, delta);
      if lastCh == 0 {
        var last := Last(dl.cmdBuffer);
        dl.cmdBuffer := Init(dl.cmdBuffer) + [last.(elemCount := last.elemCount + delta)];
      } else {
        var cmds := channels[lastCh].cmds;
        cmds := Init(cmds) + [Last(cmds).(elemCount := Last(cmds).elemCount + delta)];
        channels := channels[lastCh := channels[lastCh].(cmds := cmds)];
        assert channels[1..i] == old(channels[1..i])[lastCh - 1 := channels[lastCh]];
      }
    }

    /** Joins the first command of trimmed channel `i` to the last one so far when they agree. */
    method JoinFirst(dl: DrawList, i: nat, lastCh: int, cmds: seq<DrawCmd>, start: nat)
      returns (rest: seq<DrawCmd>, end: nat)
      requires 1 <= i <= |channels| && LastAt(dl.cmdBuffer, channels[1..i], lastCh)
      modifies this`channels, dl`cmdBuffer
      ensures |channels| == |old(channels)| && forall k :: i <= k < |channels| ==> channels[k] == old(channels)[k]
      ensures forall k :: 0 <= k < |channels| ==> channels[k].idx == old(channels)[k].idx
      ensures LastAt(dl.cmdBuffer, channels[1..i], lastCh)
      ensures var acc := old(dl.cmdBuffer + FlatCmds(channels[1..i]));
              && dl.cmdBuffer + FlatCmds(channels[1..i]) == JoinedFront(acc, cmds)
              && rest == JoinedRest(acc, cmds)
              && end == if Joins(acc, cmds) then start + cmds[0].elemCount else start
    {
      rest, end := cmds, start;
      LastAtLast(dl.cmdBuffer, channels[1..i], lastCh);
      if |cmds| > 0 && lastCh >= 0 {
        var last := if lastCh == 0 then Last(dl.cmdBuffer) else Last(channels[lastCh].cmds);
        var next := cmds[0];
        if last.header == next.header && last.callback.None? && next.callback.None? {
          ExtendLast(dl, i, lastCh, next.elemCount);
          end := end + next.elemCount;
          rest := cmds[1..];
        }
      }
    }

    /** The commands channel `i` contributes to the merge: it is trimmed, its first command
        joined to the last one so far when they agree, and its offsets rewritten. */
    method Prepare(dl: DrawList, i: nat, lastCh: int, start: nat) returns (cmds: seq<DrawCmd>, end: nat)
      requires 1 <= i < |channels| && LastAt(dl.cmdBuffer, channels[1..i], lastCh) && ChannelOk(channels[i])
      modifies this`channels, dl`cmdBuffer
      ensures |channels| == |old(channels)| && forall k :: i <= k < |channels| ==> channels[k] == old(channels)[k]
      ensures forall k :: 0 <= k < |channels| ==> channels[k].idx == old(channels)[k].idx
      ensures LastAt(dl.cmdBuffer, channels[1..i], lastCh)
      ensures var acc := old(dl.cmdBuffer + FlatCmds(channels[1..i]));
              dl.cmdBuffer + FlatCmds(channels[1..i]) + cmds == Stitched(acc, start, channels[i].cmds)
      ensures end == start + |channels[i].idx|
    {
      ghost var acc := dl.cmdBuffer + FlatCmds(channels[1..i]);
      RestRanges(acc, channels[i]);
      cmds := channels[i].cmds;
      hide Chained, ChannelOk, LastAt, FlatCmds;
      if |cmds| > 0 && Last(cmds).elemCount == 0 && Last(cmds).callback.None? {
        cmds := Init(cmds);
      }
      cmds, end := JoinFirst(dl, i, lastCh, cmds, start);
      cmds, end := Rebase(cmds, end, start);
    }

    /** One iteration of Merge's first loop. */
    method Stitch(dl: DrawList, i: nat, lastCh: int, start: nat, ghost accIdx: seq<Index>, ghost t1: seq<Event>)
      returns (newLastCh: int, end: nat)
      requires 1 <= i < |channels| && LastAt(dl.cmdBuffer, channels[1..i], lastCh)
      requires ChannelOk(channels[i]) && start == |accIdx|
      requires Renders(dl.cmdBuffer + FlatCmds(channels[1..i]), accIdx, t1)
      modifies this`channels, dl`cmdBuffer
      ensures |channels| == |old(channels)| && forall k :: i < k < |channels| ==> channels[k] == old(channels)[k]
      ensures forall k :: 0 <= k < |channels| ==> channels[k].idx == old(channels)[k].idx
      ensures LastAt(dl.cmdBuffer, channels[1..i + 1], newLastCh)
      ensures end == |accIdx + channels[i].idx|
      ensures Renders(dl.cmdBuffer + FlatCmds(channels[1..i + 1]), accIdx + channels[i].idx,
          t1 + ChannelTrace(old(channels)[i]))
      ensures |dl.cmdBuffer + FlatCmds(channels[1..i + 1])| <= |old(dl.cmdBuffer + FlatCmds(channels[1..i]))|
          + |old(channels)[i].cmds|
      ensures dl.cmdBuffer + FlatCmds(channels[1..i + 1]) ==
          Stitched(old(dl.cmdBuffer + FlatCmds(channels[1..i])), start, old(channels)[i].cmds)
    {
      hide Renders, Stitched, Chained, ChannelOk, ChannelTrace, LastAt, FlatCmds;
      ghost var ch, acc := channels[i], dl.cmdBuffer + FlatCmds(channels[1..i]);
      StitchStep(acc, accIdx, t1, ch, ChannelTrace(ch));
      StitchedSize(acc, start, ch.cmds);
      var cmds;
      cmds, end := Prepare(dl, i, lastCh, start);
      newLastCh := if |cmds| > 0 then i else lastCh;
      TakeIn(dl.cmdBuffer, channels, i, channels[i].(cmds := cmds), lastCh);
      channels := channels[i := channels[i].(cmds := cmds)];
      assert dl.cmdBuffer + FlatCmds(channels[1..i + 1]) == Stitched(acc, start, ch.cmds);
    }

    /** Merge's first loop: every channel is stitched on behind channel 0. */
    method StitchAll(dl: DrawList, ghost t0: seq<Event>) returns (ghost parts: seq<seq<Piece>>)
      requires count > 1 && count <= |channels| && Renders(dl.cmdBuffer, dl.idxBuffer, t0)
      requires forall k :: 1 <= k < count ==> ChannelOk(channels[k])
      modifies this`channels, dl`cmdBuffer
      ensures |channels| == |old(channels)|
      ensures Renders(dl.cmdBuffer + FlatCmds(channels[1..count]), dl.idxBuffer + FlatIdx(channels[1..count]),
                      t0 + Flatten(TracesOf(old(channels)[1..count])))
      ensures |dl.cmdBuffer| + |FlatCmds(channels[1..count])| <= |old(dl.cmdBuffer)|
          + |FlatCmds(old(channels)[1..count])|
      ensures Gathers(dl.cmdBuffer + FlatCmds(channels[1..count]), parts)
      ensures Flatten(parts) == PiecesOf([old(dl.cmdBuffer)] + TrimmedLists(old(channels)[1..count]))
    {
      hide Renders, Chained, ChannelOk, ChannelTrace, FlatCmds, LastAt, Gathers, PiecesOf, Stitched;
      ghost var chans, front := channels, dl.cmdBuffer;
      parts := StartParts(front, channels[1..1]);
      var lastCh := if |dl.cmdBuffer| > 0 then 0 else -1;
      RendersEnd(dl.cmdBuffer, dl.idxBuffer, t0);
      var idxOffset := if |dl.cmdBuffer| > 0 then Last(dl.cmdBuffer).End() else 0;
      ghost var accIdx, trace := dl.idxBuffer, t0;
      StitchStart(dl.cmdBuffer, accIdx, channels, t0);
      ghost var cmds := |dl.cmdBuffer|;
      for i := 1 to count
        invariant |channels| == |chans| && forall k :: i <= k < |channels| ==> channels[k] == chans[k]
        invariant forall k :: 0 <= k < |channels| ==> channels[k].idx == chans[k].idx
        invariant LastAt(dl.cmdBuffer, channels[1..i], lastCh) && idxOffset == |accIdx|
        invariant accIdx == dl.idxBuffer + FlatIdx(chans[1..i]) && trace == t0 + Flatten(TracesOf(chans[1..i]))
        invariant Renders(dl.cmdBuffer + FlatCmds(channels[1..i]), accIdx, trace)
        invariant |dl.cmdBuffer + FlatCmds(channels[1..i])| <= cmds + |FlatCmds(chans[1..i])|
        invariant Gathers(dl.cmdBuffer + FlatCmds(channels[1..i]), parts)
        invariant Flatten(parts) == PiecesOf([front] + TrimmedLists(chans[1..i]))
        invariant parts != [] ==> Last(parts) != [] && Last(Last(parts)).channel < i
      {
        ghost var acc := dl.cmdBuffer + FlatCmds(channels[1..i]);
        parts := NextParts(front, chans, i, acc, idxOffset, parts);
        lastCh, idxOffset := Stitch(dl, i, lastCh, idxOffset, accIdx, trace);
        StitchNext(dl.idxBuffer, chans, i, t0);
        accIdx, trace := accIdx + chans[i].idx, trace + ChannelTrace(chans[i]);
      }
      FlatIdxSame(channels[1..count], chans[1..count]);
    }

    /** Stitches all channels together behind channel 0. What is left of the channels' commands are
        `joined`, each made of some of them: `parts`. */
    method Merge(dl: DrawList) returns (ghost parts: seq<seq<Piece>>, ghost joined: seq<DrawCmd>)
      requires Valid(dl)
      modifies this, dl`cmdBuffer, dl`idxBuffer, dl`idxWritePtr
      ensures Valid(dl) && current == 0 && count == if old(count) <= 1 then old(count) else 1
      ensures dl.Trace() == Flatten(old(Layers(dl)))
      ensures Commands(dl) <= old(Commands(dl)) + if old(count) <= 1 then 0 else 1
      ensures old(count) <= 1 ==> dl.cmdBuffer == old(dl.cmdBuffer)
      ensures old(count) > 1 ==>
                && Gathers(joined, parts) && Flatten(parts) == PiecesOf(Brought(old(Lists(dl))))
                && dl.cmdBuffer == Closed(joined, dl.cmdHeader, |dl.idxBuffer|)
    {
      hide Render, Chained, ChannelOk, ChannelTrace, Gathers, PiecesOf, Brought, Closed;
      parts, joined := [], [];
      if count <= 1 {
        assert Flatten([dl.Trace()]) == Flatten([]) + dl.Trace();
        return;
      }
      parts, joined := MergeChannels(dl);
      count := 1;
    }

    method MergeChannels(dl: DrawList) returns (ghost parts: seq<seq<Piece>>, ghost joined: seq<DrawCmd>)
      requires Valid(dl) && count > 1
      modifies this`current, this`channels, dl`cmdBuffer, dl`idxBuffer, dl`idxWritePtr
      ensures dl.Valid() && dl.Settled() && current == 0
      ensures dl.Trace() == Flatten(old(Layers(dl))) && |dl.cmdBuffer| <= old(Commands(dl)) + 1
      ensures Gathers(joined, parts) && Flatten(parts) == PiecesOf(Brought(old(Lists(dl))))
      ensures dl.cmdBuffer == Closed(joined, dl.cmdHeader, |dl.idxBuffer|)
    {
      hide Render, Chained, ChannelOk, ChannelTrace, Flatten, LayersOf, TracesOf, Renders, Gathers, PiecesOf, Brought;
      hide Closed, FlatCmds;
      ghost var t0 := Collect(dl);
      ghost var trace := t0 + Flatten(TracesOf(channels[1..count]));
      parts := AppendChannels(dl, t0);
      joined := dl.cmdBuffer;
      FinishMerge(dl, trace);
    }

    /** Both loops of Merge. */
    method AppendChannels(dl: DrawList, ghost t0: seq<Event>) returns (ghost parts: seq<seq<Piece>>)
      requires 1 < count <= |channels| && Renders(dl.cmdBuffer, dl.idxBuffer, t0)
      requires forall k :: 1 <= k < count ==> ChannelOk(channels[k])
      modifies this`channels, dl`cmdBuffer, dl`idxBuffer, dl`idxWritePtr
      ensures dl.idxWritePtr == |dl.idxBuffer|
      ensures Renders(dl.cmdBuffer, dl.idxBuffer, t0 + Flatten(TracesOf(old(channels)[1..count])))
      ensures |dl.cmdBuffer| <= |old(dl.cmdBuffer)| + |FlatCmds(old(channels)[1..count])|
      ensures Gathers(dl.cmdBuffer, parts)
        && Flatten(parts) == PiecesOf([old(dl.cmdBuffer)] + TrimmedLists(old(channels)[1..count]))
    {
      hide Renders, ChannelOk, ChannelTrace, Flatten, Gathers, PiecesOf;
      parts := StitchAll(dl, t0);
      CopyChannels(dl);
    }

    /** Channel 0 is taken up again, and its unused trailing commands are dropped. */
    method Collect(dl: DrawList) returns (ghost t0: seq<Event>)
      requires Valid(dl) && count > 1
      modifies this`current, this`channels, dl`cmdBuffer, dl`idxBuffer, dl`idxWritePtr
      ensures current == 0 && count <= |channels| && forall k :: 1 <= k < count ==> ChannelOk(channels[k])
      ensures Renders(dl.cmdBuffer, dl.idxBuffer, t0)
      ensures t0 + Flatten(TracesOf(channels[1..count])) == Flatten(old(Layers(dl)))
      ensures |dl.cmdBuffer| + |FlatCmds(channels[1..count])| <= old(Commands(dl))
      ensures [dl.cmdBuffer] + TrimmedLists(channels[1..count]) == Brought(old(Lists(dl)))
    {
      hide Render, Chained, ChannelOk, ChannelTrace, Flatten, FlatCmds, TrimmedLists, Brought;
      ghost var saved := channels[..count][current := Channel(dl.cmdBuffer, dl.idxBuffer)];
      FlatCmdsHead(saved);
      SetCurrentChannel(dl, 0);
      assert saved[1..] == channels[..count][1..];
      FlattenHead(channels[..count], dl.Trace());
      assert channels[..count][1..] == channels[1..count];
      t0 := dl.Trace();
      dl.SettledTrace();
      ghost var cmds := dl.cmdBuffer;
      dl.PopUnusedDrawCmd();
      UsedIs(cmds, dl.cmdBuffer);
      ListsBrought(saved, channels, count, dl.cmdBuffer);
    }

    /** Merge's second loop: the channels' commands and indices are copied behind channel 0's. */
    method CopyChannels(dl: DrawList)
      requires count <= |channels| && count >= 1
      modifies dl`cmdBuffer, dl`idxBuffer, dl`idxWritePtr
      ensures dl.cmdBuffer == old(dl.cmdBuffer) + FlatCmds(channels[1..count])
      ensures dl.idxBuffer == old(dl.idxBuffer) + FlatIdx(channels[1..count])
      ensures dl.idxWritePtr == |dl.idxBuffer|
    {
      for i := 1 to count
        invariant dl.cmdBuffer == old(dl.cmdBuffer) + FlatCmds(channels[1..i])
        invariant dl.idxBuffer == old(dl.idxBuffer) + FlatIdx(channels[1..i])
      {
        hide FlatCmds, FlatIdx;
        FlatNext(old(dl.cmdBuffer), old(dl.idxBuffer), channels, i);
        dl.cmdBuffer := dl.cmdBuffer + channels[i].cmds;
        dl.idxBuffer := dl.idxBuffer + channels[i].idx;
      }
      dl.idxWritePtr := |dl.idxBuffer|;
    }

    /** Leaves an open command under the current header at the end of the merged buffer. */
    method FinishMerge(dl: DrawList, ghost trace: seq<Event>)
      requires Renders(dl.cmdBuffer, dl.idxBuffer, trace) && dl.idxWritePtr == |dl.idxBuffer|
      requires dl.vtxWritePtr == |dl.vtxBuffer| && dl.cmdHeader.vtxOffset + dl.vtxCurrentIdx == dl.vtxWritePtr
      modifies dl`cmdBuffer
      ensures dl.Valid() && dl.Settled() && dl.Trace() == trace
      ensures |dl.cmdBuffer| <= |old(dl.cmdBuffer)| + 1
      ensures dl.cmdBuffer == Closed(old(dl.cmdBuffer), dl.cmdHeader, |dl.idxBuffer|)
    {
      if |dl.cmdBuffer| == 0 || Last(dl.cmdBuffer).callback.Some? {
        AddEmptyCmd(dl.cmdBuffer, dl.cmdHeader, dl.idxBuffer);
        dl.AddDrawCmd();
      }
      assert Renders(dl.cmdBuffer, dl.idxBuffer, trace);
      MatchHeader(dl);
    }
  }
}
