# The drawing and font core of Dear ImGui, verified

A Dafny model of the code in `external/ImGui/imgui_draw.cpp`, `external/ImGui/imgui.h`, a few lines
of `external/ImGui/imgui_internal.h` and the compressor in
`external/ImGui/misc/fonts/binary_to_compressed_c.cpp` that this repository carries, with proofs of
what it keeps and computes. Fields, buffers, links and tables that the C++ code changes in place are
fields of classes and arrays here, changed by methods with the same branches and loops; each such
method is proved against what it is for, and the general facts are lemmas about plain values.

| file | contents |
|---|---|
| `Options.dfy` | values that may be missing |
| `DrawCommands.dfy` | the meaning of a command buffer: what a backend makes of it; the rules by which a changed header opens, rewrites, drops or joins commands |
| `DrawList.dfy` | `ImDrawList`: stacks, callbacks, reservations, 16-bit index windows, primitives |
| `Splitter.dfy` | `ImDrawListSplitter`: channels that swap buffers with the draw list, and their merge |
| `DrawListRun.dfy` | whole runs of both against a reference that has neither commands nor buffers |
| `Meshes.dfy` | in how many triangles of a list an edge lies |
| `Polylines.dfy`, `ConcaveFill.dfy` | `AddPolyline` on all its paths, and `AddConcavePolyFilled`, as primitives of the draw list |
| `Rings.dfy`, `Triangulation.dfy`, `Triangulator.dfy` | the ear-clipping `ImTriangulator`: sums over closed chains, what a partial triangulation is, and the linked nodes and spans |
| `StbStream.dfy`, `StbDecompress.dfy`, `StbCompress.dfy`, `Adler32.dfy` | the compressed stream, with its tokens written and read; the decoder; the compressor that is its inverse; and the blocked checksum |
| `Textures.dfy` | `ImTextureData` and the handshake between the core and a renderer backend |
| `AtlasRects.dfy`, `AtlasPacking.dfy`, `AtlasContent.dfy` | the rectangle table with generational ids; where rectangles go and when the texture changes, for any packer; what an atlas holds |
| `Atlas.dfy`, `AtlasRun.dfy`, `AtlasIds.dfy`, `AtlasStuck.dfy` | the atlas itself: repacking, growing, adding and painting; whole runs of it; what its ids mean over runs; and a run that gets stuck and lets two rectangles overlap |
| `BakedPool.dfy` | the pool of baked fonts and its collection |
| `ArcSampling.dfy`, `BezierPaths.dfy`, `GlyphRanges.dfy`, `WordWrap.dfy` | self-contained algorithms |

## How to read it

*Draw list.* `Render` is what a backend does with a command buffer: for every command in order,
its elements under its clip rectangle, texture and vertex offset, or its callback. `Trace()` is
that meaning for the part of a list that was written so far. The header rules, the reservations
and the merge are all proved to leave it alone, and a primitive to append exactly its own
triangles, if and only if none of its indices wraps at 16 bits (`Fits`). `DrawListRuns.Run` puts
this together: after any sequence of pushes, pops, primitives, callbacks, splits, channel
switches and merges, the buffers render what a reference shows that keeps one plain list of
events and sorts it by channel on a merge, and hold no more commands than its `Breaks` call for
and one for every index window, of which there is at most one for 32768 vertices. `Gathers` says
which commands a merge joins: exactly the neighbours of different channels that agree.

*Meshes.* What a stroke or a fill writes is a list of triangles without gaps: `EdgeCount` says in how
many of them an edge lies, which is two within a stroke or a fill and one at its rims
(`PathAcross`, `PathAlong`, `FanEdges`, `FillEdges`).

*Triangulator.* The geometric predicates are arbitrary functions, so the results hold for every
answer they can give, including the fallback for degenerate polygons and the flips of the node
list. `KindOf` is the type a corner calls for, and whenever a node is visited or reclassified it
gets that type. `Settled` is what types and spans are worth between two cuts, and `EarAt` what that
makes of every triangle that is cut: it turns clockwise and holds no node that has been reflex ever
since the ring was last flipped. As the build passes visit one node less than the ring has, that
node's type may be wrong until it is reclassified, unless it is an ear; and `_Reflexes` may hold
nodes that have left the ring.

*Decompression.* `Decompressed` is defined on the input alone; `Body` says what a well-formed
body is by its tokens and their expansion; the two are proved to agree. `Encode` and `Stream` are
the inverse, for every choice among the nine token forms, and the compressor makes such a stream:
`StbCompressors.RoundTrip` puts both together.

*Textures.* `Step` is the protocol: what a move of the core or of the backend makes of all that
both see of a texture. `Do` and `Run` show that the object makes exactly these steps. `Synced` is
what makes OK mean an equal copy, and `Kept` is what a draw has to meet for that; `DrawSynced`
says that nothing less will do.

*Atlas.* The packer is any function of target, boxes and size whose answers are honest: a box it
places lies within the target and touches no other. `Stored()` is all that decides where
rectangles go and when the texture changes: the texture's size, the packer's target and boxes, the
rectangle of every slot, the slots of stale glyphs. It evolves by functions of its own
(`AtlasPacking`): `Tried` is the size at which a repack ends in the chain of sizes that growing
goes through, each twice as large as the one before (`GrowthDoubles`), `Moved` what an attempt
makes of the store whether it succeeds or not, and `Search` the four attempts of an addition. `Held()` is what can be told through the ids: generation and
pixels of every entry in use, the number of discards of every slot, the free list and the glyphs.
A repack keeps it in every outcome, and making space gives up the stale glyphs' entries and
nothing else (`Freed`). `AtlasRuns.Run` accounts for whole runs state by state, up to and with the
operation that gets stuck, if one does, and `AtlasIds` says over them when an id leads where:
`IdMeaning`, `RemovedFor`, `IdsDiffer`, `PixelsStay`, `LiveIdsApart`.

*Wrapping.* A break fits the width, is between words or within a word that fills a line, or is
forced on the first codepoint; and it comes as late as the code's treatment of punctuation allows:
what lies between it and a later place up to which the line would fit is blanks, separators and
carriage returns. `Edged` says on which side of blanks it falls, with and without `keepBlanks`.

## Where the code and its documentation part

These are kept as the code has them. Each is stated with the exact condition under which it
happens, and with an input for which it does.

* A repack that finds no room in any size of the chain leaves the atlas with `LockDisableResize`
  set and its current texture flagged for destruction (imgui_draw.cpp:4044-4054, 4111). It does so
  exactly if every size of the chain refuses (`Atlases.Atlas.Repack`, `AtlasPacking.TriedInChain`).
  Rectangles are packed anew in the order of their slots, so a repack at the same size can fail
  although everything is in place: `AtlasStuck.GetsStuck` is such a run, with a plain skyline
  packer over a texture of 512 by 512 pixels and the usual padding. A caller can rule out an id
  beforehand, or foresee the lock, when the area does not suffice (`AtlasPacking.TooMuchArea`,
  `Atlases.Atlas.AddRect`).
* While the atlas is locked the packer works over the target and the boxes of the last attempt
  that failed, not over the texture. A rectangle packed then lies within the texture and clear of
  the others exactly if there is room for it at the packer's spot (`RoomFor` in
  `Atlases.Atlas.AddRect` and `AtlasPacking.FitsExactly`); the last id of `AtlasStuck.GetsStuck`
  leads to one that lies over two others.
* Growing ends when the side whose turn it is has reached its limit, even if the other side has
  not (`AtlasPacking.GrowthEnds`, `AtlasPacking.WidthNotTried`).
* A push and a pop of the same clip rectangle or texture do not always give the command buffer
  back (`PushPopClipRestores`, `PushPopTextureRestores`; `PopLosesCommand`); what is rendered is
  always the same.
* Upload requests and `UpdateRect` have 16-bit fields, and the texture may have 65536 pixels a
  side. A block of that length is requested as an empty one: the backend answers, the status says
  OK, and the copy is wrong (`Textures.DrawSynced`, `Textures.FullRowLost`, `Textures.FullRow`). Joined requests of
  shorter blocks lose pixels exactly when the result is 65536 long (`Textures.JoinedCovers`,
  `Textures.JoinedVanishes`), which concerns a backend that uploads `UpdateRect` as a whole.
* Codepoint 0 set in a glyph ranges builder makes the list it builds read as empty (`Restore`,
  `NulLosesAll`).
* A Bezier piece that is still curved at the last level is dropped. So the end of a curve is
  given exactly if a piece ending there is flat (`EndGiven`), and nothing is given exactly if no
  piece is (`NothingGiven`); a piece whose ends coincide never counts as flat, so a curve that is
  a single point gives no points (`CollapsedGivesNothing`).
* `_VtxCurrentIdx` is advanced by a 16-bit count after some primitives, so it stays in step with
  the vertex buffer exactly for fewer than 65536 vertices (`AddConvexPolyFilled`,
  `AddConcavePolyFilled`, `AddPolyline`; `LargeFillOutOfStep`).
* The index mask of a rectangle id has 19 bits where its comment counts 20 with a sign
  (imgui_internal.h:3795), so an index leads back to itself exactly if it is below 524288
  (`AtlasRects.IndexFits`).

## Model

| member | source | states |
|---|---|---|
| `DrawCommands.ChainedRanges` | external/ImGui/imgui_draw.cpp:562-566 | the ranges of a command buffer in order follow on from one another, from 0 to the size of the index buffer |
| `DrawCommands.RendersStep` | external/ImGui/imgui_draw.cpp:716-739 | a buffer renders what comes before its last command, and then that command |
| `DrawCommands.RenderJoin` | external/ImGui/imgui_draw.cpp:568-579 | joining two adjacent commands of equal headers changes nothing that is rendered |
| `DrawCommands.ClipChangedKeepsRendering` | external/ImGui/imgui_draw.cpp:582-602 | whichever of its cases applies, the clip rule leaves an open command under the new header and the rendering as it was |
| `DrawCommands.TextureChangedKeepsRendering` | external/ImGui/imgui_draw.cpp:604-627 | the same for the texture rule |
| `DrawCommands.VtxOffsetChangedKeepsRendering` | external/ImGui/imgui_draw.cpp:629-643 | the same for the vertex offset rule |
| `DrawCommands.HeaderChangeKeepsRendering` | external/ImGui/imgui_draw.cpp:2242-2250 | matching the last command to the header, and dropping an unused one in favour of its predecessor, both leave the rendering as it was |
| `DrawCommands.LastGivesWay` | external/ImGui/imgui_draw.cpp:582-643 | however the header changes, a command that draws stays and one that does not gives way, so changes that nothing is drawn between open one command at most |
| `DrawCommands.PushPopClipRestores` | external/ImGui/imgui_draw.cpp:582-602 | a clip push and pop give the command buffer back if and only if no unused last command gets dropped on the way |
| `DrawCommands.PushPopTextureRestores` | external/ImGui/imgui_draw.cpp:604-627 | the same for textures |
| `DrawCommands.TraceReserve` | external/ImGui/imgui_draw.cpp:716-750 | reserving and giving back room changes nothing that is rendered |
| `DrawCommands.TraceWrite` | external/ImGui/imgui.h:3376-3377 | writing indices appends exactly their elements to what is rendered |
| `DrawLists.PushedClipMeaning` | external/ImGui/imgui_draw.cpp:656-673 | a pushed clip rectangle shows exactly the pixels asked for that the current one shows too, and is never inverted |
| `DrawLists.IndicesResolve` | external/ImGui/imgui_draw.cpp:716-766 | indices written under a header resolve to the primitive's own vertices if and only if none of them wraps at 16 bits |
| `DrawLists.SmallMeshFits` | external/ImGui/imgui_draw.cpp:716-726 | with vertex offsets no primitive of at most 65536 vertices wraps; without, none while the list stays within that |
| `DrawLists.DrawList.constructor` | external/ImGui/imgui_draw.cpp:445-471 | a fresh list has one open command and renders nothing |
| `DrawLists.DrawList.AddDrawCmd` | external/ImGui/imgui_draw.cpp:501-511 | opens a command at the end of the indices and changes nothing that is rendered |
| `DrawLists.DrawList.PopUnusedDrawCmd` | external/ImGui/imgui_draw.cpp:515-524 | drops exactly the trailing commands that draw nothing and call nothing |
| `DrawLists.DrawList.AddCallback` | external/ImGui/imgui_draw.cpp:526-559 | the callback is rendered after what was drawn before and before what is drawn later, with its data, from a command of its own with an open one behind it |
| `DrawLists.DrawList.TryMergeDrawCmds` | external/ImGui/imgui_draw.cpp:568-579 | joins the last two commands if and only if they agree, lie side by side and neither is a callback, and renders as before, wherever the other commands lie |
| `DrawCommands.JoinKeeps` | external/ImGui/imgui_draw.cpp:568-579 | joining two commands of equal headers whose indices lie side by side changes nothing that is rendered, whatever comes before them |
| `DrawLists.OpenByHand` | external/ImGui/imgui_draw.cpp:501-511 | a fresh list with a rectangle pushed and a command opened by hand has two unused commands under its header |
| `DrawLists.PopLosesCommand` | external/ImGui/imgui_draw.cpp:582-602 | on such a list, pushing any other rectangle and popping it leaves one of the two |
| `DrawLists.LargeFillOutOfStep` | external/ImGui/imgui_draw.cpp:1125-1143 | a fill of 65536 points puts the vertex counter out of step |
| `DrawLists.DrawList.OnChangedClipRect` | external/ImGui/imgui_draw.cpp:582-602 | follows the clip rule and renders as before |
| `DrawLists.DrawList.OnChangedTexture` | external/ImGui/imgui_draw.cpp:604-627 | follows the texture rule and renders as before |
| `DrawLists.DrawList.OnChangedVtxOffset` | external/ImGui/imgui_draw.cpp:629-643 | follows the vertex offset rule, restarts the vertex counter and renders as before |
| `DrawLists.DrawList.PushClipRect` | external/ImGui/imgui_draw.cpp:656-673 | makes the cut-down rectangle current for what is drawn next, and only that |
| `DrawLists.DrawList.PushClipRectFullScreen` | external/ImGui/imgui_draw.cpp:675-678 | the same with the whole screen |
| `DrawLists.DrawList.PopClipRect` | external/ImGui/imgui_draw.cpp:680-685 | goes back to the rectangle below, or to the whole screen |
| `DrawLists.DrawList.PushTexture` | external/ImGui/imgui_draw.cpp:687-694 | makes the texture current for what is drawn next |
| `DrawLists.DrawList.PopTexture` | external/ImGui/imgui_draw.cpp:696-701 | goes back to the texture below, or to none |
| `DrawLists.DrawList.SetTexture` | external/ImGui/imgui_draw.cpp:704-711 | nothing if the texture is current already, or else replaces it and the top of the stack |
| `DrawLists.DrawList.PrimReserve` | external/ImGui/imgui_draw.cpp:716-739 | room for a primitive in the open command, which only gets longer as long as the counter stays below 65536 or there are no vertex offsets, or else in one with a window that starts at its own vertices; counter plus offset stay the number of vertices |
| `DrawLists.DrawList.PrimUnreserve` | external/ImGui/imgui_draw.cpp:742-750 | gives back the end of the last reservation |
| `DrawLists.DrawList.PrimWriteIdx` | external/ImGui/imgui.h:3377 | writes one index into the reservation |
| `DrawLists.DrawList.PrimWriteVtx` | external/ImGui/imgui.h:3376 | writes one vertex into the reservation and counts it |
| `DrawLists.DrawList.PrimRect` | external/ImGui/imgui_draw.cpp:753-766 | a rectangle: four vertices, and six indices that are its two triangles |
| `DrawLists.DrawList.AddMesh` | external/ImGui/imgui_draw.cpp:716-766 | a whole primitive appends exactly its triangles over its own vertices, if and only if no index wraps, and opens a command for a new window only |
| `DrawLists.DrawList.ReservedMeans` | external/ImGui/imgui_draw.cpp:720-731 | as long as the indices of the window suffice only the open command gets longer; when they do not, the next window starts at the primitive's own vertices |
| `DrawLists.DrawList.AddConvexPolyFilled` | external/ImGui/imgui_draw.cpp:1125-1143 | a fan over the points, or nothing for fewer than three or a transparent colour; in order afterwards if and only if there are fewer than 65536 points |
| `Splitters.AppendShifted` | external/ImGui/imgui_draw.cpp:2177-2212 | one buffer behind another, with its ranges shifted, renders one after the other |
| `Splitters.RendersJoined` | external/ImGui/imgui_draw.cpp:2183-2193 | joining two commands in the middle of a buffer renders the same |
| `Splitters.StitchStep` | external/ImGui/imgui_draw.cpp:2171-2204 | a channel stitched on behind what is there renders one after the other, whether or not commands are joined |
| `Splitters.Splitter.Clear` | external/ImGui/imgui.h:3204 | forgets the channels |
| `Splitters.Splitter.Split` | external/ImGui/imgui_draw.cpp:2128-2156 | channel 0 shows what was there before, every other channel nothing, whatever storage was left from earlier |
| `Splitters.Splitter.SetCurrentChannel` | external/ImGui/imgui_draw.cpp:2229-2251 | putting the current buffers aside and taking up others changes what no channel shows, and opens at most one command |
| `Splitters.Splitter.Rebase` | external/ImGui/imgui_draw.cpp:2198-2202 | rewritten offsets follow on from the ones before |
| `Splitters.Splitter.Stitch` | external/ImGui/imgui_draw.cpp:2171-2204 | one round of the first merge loop stitches its channel on |
| `Splitters.Splitter.StitchAll` | external/ImGui/imgui_draw.cpp:2171-2204 | the first merge loop makes all channels one buffer in order |
| `Splitters.Splitter.CopyChannels` | external/ImGui/imgui_draw.cpp:2205-2215 | the second loop writes the channels' commands and indices behind channel 0's |
| `Splitters.Splitter.FinishMerge` | external/ImGui/imgui_draw.cpp:2217-2226 | an open command under the current header ends the merged buffer |
| `Splitters.Splitter.Merge` | external/ImGui/imgui_draw.cpp:2158-2227 | the merged list renders channel 0, then channel 1, and so on; its commands are those of the channels in order, with unused ones at the end left out, and where neighbours were joined, exactly where they come from different channels, agree in header and neither is a callback; an open command under the current header ends it, and there is at most one command more than all channels had |
| `Splitters.OneCommand` | external/ImGui/imgui_draw.cpp:2158-2227 | channels with one drawn command each under the current header merge to one command |
| `DrawListRuns.EmitContents` | external/ImGui/imgui_draw.cpp:2229-2251 | in the reference, a submission adds to the current channel and to no other |
| `DrawListRuns.MergeOrder` | external/ImGui/imgui_draw.cpp:2158-2227 | the merged order: what was there before and then each channel's submissions, in the order they were submitted |
| `DrawListRuns.Do` | external/ImGui/imgui_draw.cpp:501-766 | one operation of any kind keeps list, splitter and reference in agreement, and opens no more commands than it is meant to |
| `DrawListRuns.Run` | external/ImGui/imgui_draw.cpp:501-766 | every sequence of operations does; the command buffer then covers the indices without gaps, does not end in a callback, and its last header is the current one; it has at most one command for every change of clip rectangle or texture, new index window, channel change, merge and command opened by hand, and two for every callback, besides the first; with fewer than 65536 vertices in all, or without vertex offsets, no index window is among them |
| `DrawListRuns.WindowsOpened` | external/ImGui/imgui_draw.cpp:716-739 | drawing opens no command while the vertices stay below 65536, and one for 32768 of them at most |
| `Polylines.PathTrisInRange` | external/ImGui/imgui_draw.cpp:853-925 | every path writes exactly as many indices as it reserves, and each names one of its own vertices |
| `Polylines.EveryVertexUsed` | external/ImGui/imgui_draw.cpp:885-925 | no vertex of a path is left out of its triangles |
| `Polylines.PathAcross` | external/ImGui/imgui_draw.cpp:885-925 | the edges across a line at a point lie in one triangle of every segment that meets there: a closed line has no ends |
| `Polylines.PathAlong` | external/ImGui/imgui_draw.cpp:885-925 | the edges along a line lie in one triangle at its rims and in two within: no segment has a gap |
| `Polylines.Normals` | external/ImGui/imgui_draw.cpp:842-856 | every slot of the normals gets its value, open or closed |
| `Polylines.PutSegments` | external/ImGui/imgui_draw.cpp:873-925 | every temporary position is written before any is read, and every segment joins the vertices of its two points |
| `Polylines.PutPoints` | external/ImGui/imgui_draw.cpp:927-962 | the vertices of every point, from its temporary positions |
| `Polylines.PutPlain` | external/ImGui/imgui_draw.cpp:1033-1058 | without anti-aliasing, four vertices and six indices of its own for every segment |
| `Polylines.StrokeFits` | external/ImGui/imgui_draw.cpp:833-838 | with vertex offsets no stroke of at most 65536 vertices wraps an index |
| `Polylines.StrokeAntiAliased` | external/ImGui/imgui_draw.cpp:815-1024 | exactly the reserved vertices and indices, rendering the stroke if and only if no index wraps |
| `Polylines.StrokePlain` | external/ImGui/imgui_draw.cpp:1026-1059 | the same without anti-aliasing |
| `Polylines.KindIs` | external/ImGui/imgui_draw.cpp:818-833 | a line is drawn from the texture exactly if that is allowed, at the usual fringe, and it is as wide as one of the 31 widths there are or hardly wider; and otherwise with a core exactly if it is wider than the fringe |
| `Polylines.AlphaCleared` | external/ImGui/imgui_draw.cpp:821 | the colour of a fringe is transparent and otherwise the same |
| `Polylines.AddPolyline` | external/ImGui/imgui_draw.cpp:806-1060 | a line, open or closed, on the path that flags, thickness and fringe call for, or nothing for fewer than two points or a transparent colour |
| `ConcaveFills.AddConcavePolyFilled` | external/ImGui/imgui_draw.cpp:2018-2108 | what is appended is a triangulation of the polygon over its own vertices, made by cutting off ears, with a fringe along every edge when anti-aliased, rendered if and only if no index wraps |
| `ConcaveFills.FanEdges` | external/ImGui/imgui_draw.cpp:1137-1141 | the sides of a fan lie in one triangle each, and the lines from its first point in two |
| `ConcaveFills.RectFan` | external/ImGui/imgui_draw.cpp:753-766 | a rectangle is a fan over its four corners in order |
| `ConcaveFills.FillEdges` | external/ImGui/imgui_draw.cpp:2036-2092 | a fill has no gaps: every side lies in one of its triangles and every other edge in none or two, and with a fringe every side lies in one of the fill and one of the fringe, which is closed |
| `ConcaveFills.FillFits` | external/ImGui/imgui_draw.cpp:2024-2092 | with vertex offsets a fill of at most 65536 vertices wraps no index |
| `ConcaveFills.PutTriangles` | external/ImGui/imgui_draw.cpp:2042-2105 | the triangles are written in the order they are cut |
| `ConcaveFills.PutFringe` | external/ImGui/imgui_draw.cpp:2049-2082 | every point gets its inner and outer vertex, from the normals of both its edges, and every edge its two triangles |
| `Rings.RemoveSum` | external/ImGui/imgui_draw.cpp:1940-1945 | unlinking a node replaces its two edges by one in any sum over the ring |
| `Rings.ReversedSum` | external/ImGui/imgui_draw.cpp:1950-1970 | reversing the ring keeps symmetric sums and negates antisymmetric ones |
| `Rings.RingEdges` | external/ImGui/imgui_draw.cpp:1873-1885 | a ring of three or more nodes has each of its edges once |
| `Rings.NoShortcut` | external/ImGui/imgui_draw.cpp:1935-1945 | the edge a cut adds is not in the ring already |
| `Triangulations.CutStep` | external/ImGui/imgui_draw.cpp:1935-1947 | cutting a node off keeps the count of every edge: polygon sides once, diagonals twice |
| `Triangulations.LastCut` | external/ImGui/imgui_draw.cpp:1935-1947 | the last cut leaves a triangulation |
| `Triangulations.CutArea` | external/ImGui/imgui_draw.cpp:1935-1947 | a cut moves exactly the triangle's signed area from the ring to the triangles |
| `Triangulations.FlipArea` | external/ImGui/imgui_draw.cpp:1950-1970 | flipping negates the ring's area |
| `Triangulations.FlipPartial` | external/ImGui/imgui_draw.cpp:1950-1970 | flipping changes no edge count |
| `Triangulators.Span.PushBack` | external/ImGui/imgui_draw.cpp:1831 | appends a node |
| `Triangulators.Span.FindEraseUnsorted` | external/ImGui/imgui_draw.cpp:1832 | takes out one occurrence of the node, moving the last into its place |
| `Triangulators.Triangulator.constructor` | external/ImGui/imgui_draw.cpp:1861-1871 | nodes, spans and types are in order for any polygon of three or more points |
| `Triangulators.Triangulator.BuildNodes` | external/ImGui/imgui_draw.cpp:1873-1885 | links all points into a ring in order |
| `Triangulators.Triangulator.BuildReflexes` | external/ImGui/imgui_draw.cpp:1887-1897 | types the reflex ones among the nodes visited, and the span holds exactly the reflex nodes visited |
| `Triangulators.Triangulator.BuildEars` | external/ImGui/imgui_draw.cpp:1899-1911 | of the nodes visited, exactly the convex ones with no reflex node in their triangle become ears, and the span holds exactly the ears |
| `Triangulators.Triangulator.BuildTypes` | external/ImGui/imgui_draw.cpp:1887-1911 | after both passes every node visited has the type its corner calls for |
| `Triangulators.Triangulator.Classify` | external/ImGui/imgui_draw.cpp:1988-1997 | reflex, ear or convex, as the corner calls for |
| `Triangulators.Triangulator.IsEar` | external/ImGui/imgui_draw.cpp:1973-1984 | no reflex node but the corners is reported inside the triangle |
| `Triangulators.Triangulator.FlipNodeList` | external/ImGui/imgui_draw.cpp:1950-1971 | the ring is exactly the reversed sequence, doubly linked |
| `Triangulators.Triangulator.ReclassifyNode` | external/ImGui/imgui_draw.cpp:1986-2010 | the node gets the type its neighbours call for and moves between the spans, which stay exact, free of duplicates and within their storage |
| `Triangulators.Triangulator.FindEars` | external/ImGui/imgui_draw.cpp:1915-1933 | flips once, rebuilds, and arms an ear, or the first node exactly if there is none |
| `Triangulators.Triangulator.GetNextTriangle` | external/ImGui/imgui_draw.cpp:1913-1948 | one triangle less to go, and everything stays in order; the last node of the ears span is cut, and the ring is flipped first exactly if that span is empty; what is cut is an ear, unless the ring was just flipped and has none; the neighbours end with the types that their corners in the new ring call for |
| `Triangulators.Triangulate` | external/ImGui/imgui_draw.cpp:2098-2105 | n - 2 triangles for any answers of the predicates; every polygon side in exactly one, every other edge in none or two; the areas, each negated exactly if the ring had been flipped an odd number of times, add up to the polygon's; each cut takes the last of the ears there are, or flips first if there are none; every triangle turns clockwise and holds no node that has been reflex since the last flip, in the ring that the cuts before it leave, unless that was just flipped and has no ear |
| `Triangulators.Triangulator.SettleNeighbours` | external/ImGui/imgui_draw.cpp:1945-1946 | both neighbours of the node that was cut get the types that their corners call for, and types and spans are in order again |
| `AdlerChecksums.ReduceLate` | external/ImGui/imgui_draw.cpp:6091-6117 | reducing once at the end of a block equals reducing after every byte (section 2.2 of RFC 1950) |
| `AdlerChecksums.ReduceEarly` | external/ImGui/imgui_draw.cpp:6091-6117 | a start value may be reduced first, unless there is nothing to sum |
| `AdlerChecksums.BlockFits` | external/ImGui/imgui_draw.cpp:6095-6112 | within a block the sums stay below 2^32 (section 8.2 of RFC 1950) |
| `AdlerChecksums.ModLargestPrime` | external/ImGui/imgui_draw.cpp:6093 | the modulus is the largest prime below 65536 (section 8.2 of RFC 1950) |
| `AdlerChecksums.Halves` | external/ImGui/imgui_draw.cpp:6091-6119 | the lower half of the checksum is one more than the sum of the bytes, modulo 65521, and the upper half the sum of what that was after every byte |
| `AdlerChecksums.BlockLimit` | external/ImGui/imgui_draw.cpp:6095 | 5552 bytes is as long as a block may be, and not one more |
| `AdlerChecksums.SumEight` | external/ImGui/imgui_draw.cpp:6099-6109 | the unrolled step is eight single ones |
| `AdlerChecksums.SumBlock` | external/ImGui/imgui_draw.cpp:6099-6115 | one block, reduced at its end |
| `AdlerChecksums.Adler32` | external/ImGui/imgui_draw.cpp:6091-6120 | the blocked form equals the per-byte definition for every buffer and every 32-bit start |
| `StbStreams.ExpansionGrows` | external/ImGui/imgui_draw.cpp:6052-6068 | every token adds to the output and changes nothing before it |
| `StbStreams.DecompressedSound` | external/ImGui/imgui_draw.cpp:6122-6152 | what is accepted is a well-formed body, and the result is the expansion of its tokens; there are no more tokens than bytes |
| `StbStreams.DecompressedComplete` | external/ImGui/imgui_draw.cpp:6122-6152 | every well-formed body is accepted |
| `StbStreams.DecodeEncoded` | external/ImGui/imgui_draw.cpp:6074-6089 | decoding a token encoded in any of the forms that can carry it recovers it |
| `StbStreams.EncodeDecoded` | external/ImGui/imgui_draw.cpp:6074-6089 | encoding what was decoded, in the form of its first byte, gives the bytes back |
| `StbStreams.DecodeAllEncoded` | external/ImGui/imgui_draw.cpp:6074-6089 | the same for whole lists of tokens |
| `StbStreams.StreamRoundTrip` | external/ImGui/imgui_draw.cpp:6122-6152 | a stream made from any tokens and forms decompresses to exactly their expansion |
| `StbDecompressors.PeriodicByte` | external/ImGui/imgui_draw.cpp:6052-6059 | an overlapping copy repeats its source periodically |
| `StbDecompressors.Decoder.Match` | external/ImGui/imgui_draw.cpp:6052-6059 | copies byte by byte what the match stands for, or marks the output as overrun; nothing past the end is written |
| `StbDecompressors.Decoder.Lit` | external/ImGui/imgui_draw.cpp:6061-6068 | copies the literal, with the same limits |
| `StbDecompressors.Decoder.DecompressToken` | external/ImGui/imgui_draw.cpp:6074-6089 | carries out exactly the token that the bytes encode |
| `StbDecompressors.Decompress` | external/ImGui/imgui_draw.cpp:6122-6152 | succeeds exactly on well-formed streams with the right checksum, with at most one token more than bytes, and never writes past the declared length |
| `StbCompressors.MatchNext` | external/ImGui/misc/fonts/binary_to_compressed_c.cpp:295-368 | where the input repeats itself, a match stands for what comes next |
| `StbCompressors.MatchLen` | external/ImGui/misc/fonts/binary_to_compressed_c.cpp:210-216 | how far two places agree, and no further |
| `StbCompressors.Try` | external/ImGui/misc/fonts/binary_to_compressed_c.cpp:306-313 | a place in the table is taken for the best match only if the input repeats itself from there, for more than the one before |
| `StbCompressors.Compressor.OutLiterals` | external/ImGui/misc/fonts/binary_to_compressed_c.cpp:237-255 | bytes of the input are written as tokens that stand for them, however many |
| `StbCompressors.Compressor.FindMatch` | external/ImGui/misc/fonts/binary_to_compressed_c.cpp:296-332 | what four places in the table come to, which then stand for this one |
| `StbCompressors.Compressor.Step` | external/ImGui/misc/fonts/binary_to_compressed_c.cpp:295-368 | a match is written in a form that carries it, behind the literals before it, or a byte is left to the literals; the tokens so far stand for the input so far |
| `StbCompressors.Compressor.CompressChunk` | external/ImGui/misc/fonts/binary_to_compressed_c.cpp:276-379 | all of the input but for the literals at its end |
| `StbCompressors.Compressor.Compress` | external/ImGui/misc/fonts/binary_to_compressed_c.cpp:381-414 | what is written is a stream of tokens that stand for the input, with its length and checksum, and it fits the buffer of n + 512 + n / 4 + 4 bytes that is guessed for it (binary_to_compressed_c.cpp:101) |
| `StbCompressors.RoundTrip` | external/ImGui/misc/fonts/binary_to_compressed_c.cpp:381-424 | decompressing what was compressed gives back the input, whatever the hash functions, the window and the size of the table |
| `Textures.RequestCovers` | external/ImGui/imgui_draw.cpp:2962-2965 | a request covers its block, or nothing at all if a side is 65536 long |
| `Textures.JoinedCovers` | external/ImGui/imgui_draw.cpp:2965-2971 | joining a block to the update rectangle loses nothing if and only if its request holds it and neither side of the result is 65536 long |
| `Textures.JoinedVanishes` | external/ImGui/imgui_draw.cpp:2965-2971 | two pixels that join to an empty rectangle |
| `Textures.JoinedWithin` | external/ImGui/imgui_draw.cpp:2965-2971 | in smaller textures nothing is ever lost |
| `Textures.StepReady` | external/ImGui/imgui_draw.cpp:2792-2984 | every move keeps the bookkeeping in order: a texture id exactly in the states that have one, and an update rectangle within the texture |
| `Textures.DrawSynced` | external/ImGui/imgui_draw.cpp:2959-2984 | a draw keeps every pixel that differs queued if and only if its sides are shorter than 65536 or it leaves no such pixel to the block |
| `Textures.StepSynced` | external/ImGui/imgui_draw.cpp:2792-2984 | and so does every other move |
| `Textures.RunSynced` | external/ImGui/imgui_draw.cpp:2792-2984 | in every interleaving in which each draw meets that, OK means that the backend's copy is equal |
| `Textures.NarrowKept` | external/ImGui/imgui_draw.cpp:2959-2984 | draws of blocks with shorter sides do |
| `Textures.FullRowLost` | external/ImGui/imgui_draw.cpp:2959-2984 | a full row of 65536 pixels: OK, over a copy that is wrong |
| `Textures.FullRow` | external/ImGui/imgui_draw.cpp:2959-2984 | the same happens to a texture that was just created |
| `Textures.NotRemoved` | external/ImGui/imgui_draw.cpp:2808-2834 | a texture that is never flagged is never removed |
| `Textures.Recreated` | external/ImGui/imgui_draw.cpp:2808-2834 | an unflagged texture that the backend lost is asked for again after a frame, and then whole |
| `Textures.RemovedWhen` | external/ImGui/imgui_draw.cpp:2808-2834 | a frame removes a texture exactly if it is flagged and the backend has nothing of it left |
| `Textures.Retired` | external/ImGui/imgui_draw.cpp:2808-2834 | a flagged texture is removed at the next frame exactly if the backend does not have it, and otherwise after a visit of a serving backend and one more frame |
| `Textures.TextureData.constructor` | external/ImGui/imgui_draw.cpp:2468-2482 | a new texture waits to be created |
| `Textures.TextureData.QueueUpload` | external/ImGui/imgui_draw.cpp:2959-2984 | the request, cast to 16 bits, is joined to the update rectangle and queued |
| `Textures.TextureData.Draw` | external/ImGui/imgui_draw.cpp:2926-2984 | a block is written and its upload requested, and nothing else changes |
| `Textures.TextureData.SetStatus` | external/ImGui/imgui.h:3510 | a texture that was not flagged and is dropped goes back to be created |
| `Textures.TextureData.Serve` | external/ImGui/imgui.h:3448-3456 | a backend that honours the requests |
| `Textures.TextureData.Drop` | external/ImGui/imgui.h:3448-3456 | a backend may lose a texture at any time |
| `Textures.TextureData.UpdateNewFrame` | external/ImGui/imgui_draw.cpp:2792-2844 | the core's step of the protocol |
| `Textures.Do` | external/ImGui/imgui_draw.cpp:2792-2984 | each move on the object is the protocol's step |
| `Textures.Run` | external/ImGui/imgui_draw.cpp:2792-2984 | over any sequence of moves the object ends in the state the protocol gives |
| `AtlasRects.IdRoundTrip` | external/ImGui/imgui_internal.h:3795-3800 | index and generation can be read back from an id, which is never the invalid one |
| `AtlasRects.IndexFits` | external/ImGui/imgui_internal.h:3795-3800 | an index leads back to itself exactly if it fits the 19 bits of the mask |
| `AtlasRects.GenerationClosed` | external/ImGui/imgui_draw.cpp:4314-4316 | the generation after any number of discards |
| `AtlasRects.GenerationRepeats` | external/ImGui/imgui_draw.cpp:4314-4316 | a slot has the same generation again exactly after a multiple of 1023 discards, and never its first one |
| `AtlasRects.FreePop` | external/ImGui/imgui_draw.cpp:4280-4286 | taking the first free entry leaves the list acyclic and exact |
| `AtlasRects.FreePush` | external/ImGui/imgui_draw.cpp:4312-4319 | so does putting one back |
| `AtlasRects.RectTable.GetRectSafe` | external/ImGui/imgui_draw.cpp:4391-4406 | a rectangle if and only if the id resolves |
| `AtlasRects.RectTable.LiveIdsInjective` | external/ImGui/imgui_draw.cpp:4391-4406 | different live ids have different rectangles |
| `AtlasRects.RectTable.ResolvesWhen` | external/ImGui/imgui_draw.cpp:4391-4406 | an id resolves exactly while its slot is in use and was not discarded, or once its generations have come round |
| `AtlasRects.RectTable.AllocRectEntry` | external/ImGui/imgui_draw.cpp:4269-4291 | takes a free entry or a new one, keeping its generation |
| `AtlasRects.RectTable.Insert` | external/ImGui/imgui_draw.cpp:4365-4374 | the rectangle enters the table under the next free slot, with the id that its generation gives; all other entries stay; used entries and discards still add up, and so do the areas |
| `AtlasRects.RectTable.DiscardRect` | external/ImGui/imgui_draw.cpp:4303-4324 | the id stops resolving and its area leaves the sums; all other entries stay |
| `Atlases.BlockCopy` | external/ImGui/imgui_draw.cpp:2946-2956 | the block is the same in both textures, and no disjoint block is touched |
| `Atlases.SamePicture` | external/ImGui/imgui_draw.cpp:4027-4060 | entries repacked with equal pixels stand for the same |
| `Atlases.BlockFill` | external/ImGui/imgui_draw.cpp:2926-2943 | the block has one colour, and no disjoint block is touched |
| `AtlasPacking.Packer.Pack` | external/ImGui/imgui_draw.cpp:4346-4354 | where the packer says, if it says so, clear of all other boxes |
| `AtlasPacking.UpperIsPower` | external/ImGui/imgui_internal.h:382 | the smallest power of two from a size on is one |
| `AtlasPacking.NextCloser` | external/ImGui/imgui_draw.cpp:4097-4110 | the next size lies within the limits, and is the same or closer to the largest |
| `AtlasPacking.GrowthEnds` | external/ImGui/imgui_draw.cpp:4097-4112 | growing ends exactly where the side whose turn it is is at its limit, and the other is too or is large enough |
| `AtlasPacking.WidthNotTried` | external/ImGui/imgui_draw.cpp:4097-4112 | a square at its greatest height does not get wider |
| `AtlasPacking.NextDoubles` | external/ImGui/imgui_draw.cpp:4097-4108 | as long as the largest rectangle fits, growing doubles the height of a texture that is at least as wide as high, the width of any other, and nothing else |
| `AtlasPacking.NextLeaps` | external/ImGui/imgui_draw.cpp:4101-4108 | when it does not fit, the next size is the smallest power of two with room for it, or twice the side |
| `AtlasPacking.GrowthDoubles` | external/ImGui/imgui_draw.cpp:4013-4115 | every size of the growth chain has twice the area of the one before |
| `AtlasPacking.TriedDoubles` | external/ImGui/imgui_draw.cpp:4013-4115 | a repack ends at the size asked for or at twice the area of one that refused |
| `AtlasPacking.GrownDoubles` | external/ImGui/imgui_draw.cpp:4085-4115 | growing repacks from twice the shorter side on, or does nothing when that is at its limit |
| `AtlasPacking.LargestKnown` | external/ImGui/imgui_draw.cpp:4337-4340 | once everything is packed the largest sides known are the largest of all |
| `AtlasPacking.FourAttempts` | external/ImGui/imgui_draw.cpp:4343-4363 | space is made up to three times, as long as there is no spot and the atlas is not locked |
| `AtlasPacking.TriedInChain` | external/ImGui/imgui_draw.cpp:4013-4115 | a repack ends at the first size of the growth chain that takes everything, and at the last one exactly if every size refuses |
| `AtlasPacking.PackAllBoxes` | external/ImGui/imgui_draw.cpp:4037-4060 | packing everything ends with boxes clear of each other, which have all the area if it succeeds |
| `AtlasPacking.PackingArea` | external/ImGui/imgui_draw.cpp:4346-4354 | boxes clear of each other have no more area than their target |
| `AtlasPacking.TooMuchArea` | external/ImGui/imgui_draw.cpp:4330-4363 | no packer finds a spot if what is in use and not stale, and the new rectangle, have more area than the largest size, unless the atlas gets stuck over it |
| `AtlasPacking.SpacedCovers` | external/ImGui/imgui_draw.cpp:4117-4129 | making space keeps the sizes of all that is in use and not stale, in a texture within its limits if it does not get stuck |
| `AtlasPacking.RepackedNow` | external/ImGui/imgui_draw.cpp:4013-4115 | a repack is an attempt at the size asked for, and growth from there when that fails |
| `AtlasPacking.FitsExactly` | external/ImGui/imgui_draw.cpp:4330-4375 | a rectangle lies within the texture and clear of all others exactly if there was room at the spot it was given |
| `AtlasContents.InStale` | external/ImGui/imgui_draw.cpp:3843-3900 | the slots that are given up are exactly those of glyphs that were not used lately |
| `AtlasContents.FreedTwice` | external/ImGui/imgui_draw.cpp:4117-4129 | making space a second time gives nothing more up |
| `Atlases.Atlas.constructor` | external/ImGui/imgui_draw.cpp:4196-4237 | an empty atlas in order, over a texture of its smallest size |
| `Atlases.Atlas.TextureAdd` | external/ImGui/imgui_draw.cpp:3964-3999 | a new texture becomes current and the old one is flagged |
| `Atlases.Atlas.PackOver` | external/ImGui/imgui_draw.cpp:4330-4375 | packing under an existing entry: one attempt, at the spot the packer gives |
| `Atlases.Atlas.MoveEntry` | external/ImGui/imgui_draw.cpp:4037-4060 | one entry is packed anew and its pixels copied, leaving the ones before alone, exactly if the packer has a spot |
| `Atlases.Atlas.RepackEntries` | external/ImGui/imgui_draw.cpp:4037-4060 | all of them are, exactly if the packer takes the live sizes one after another in the order of the index |
| `Atlases.Atlas.PatchGlyphs` | external/ImGui/imgui_draw.cpp:4065-4076 | every cached glyph shows its rectangle where it is now |
| `Atlases.Atlas.TryRepack` | external/ImGui/imgui_draw.cpp:4013-4083 | one attempt at the given size: it succeeds exactly if everything can be packed; otherwise table, glyphs and texture are as they were, and the packer has what it made of the attempt |
| `Atlases.Atlas.Repack` | external/ImGui/imgui_draw.cpp:4013-4083 | locked exactly if every size of the growth chain refuses, with target and boxes of the last one, and otherwise over a fresh texture of the first size that takes everything, every rectangle where its box is; in every outcome ids, generations, sizes, pixels and free list are kept |
| `Atlases.Atlas.Grow` | external/ImGui/imgui_draw.cpp:4085-4115 | nothing if growing has come to its end, or else a repack from the next size on |
| `Atlases.Atlas.DiscardBakes` | external/ImGui/imgui_draw.cpp:3843-3900 | exactly the entries of stale glyphs are given up |
| `Atlases.Atlas.MakeSpace` | external/ImGui/imgui_draw.cpp:4117-4129 | after that, a repack at the same size if a fifth of the packed surface was given up by then, or else growth; nothing else is lost, stuck or not |
| `Atlases.Atlas.RemoveRect` | external/ImGui/imgui_draw.cpp:3278-3283 | exactly that entry is given up, if it resolves; the atlas stays in order if and only if no glyph had it |
| `Atlases.Atlas.FindRoom` | external/ImGui/imgui_draw.cpp:4343-4363 | the four attempts of the search, with room made in between, give exactly its spot or its failure, stuck or not |
| `Atlases.Atlas.AddRect` | external/ImGui/imgui_draw.cpp:4330-4375 | an id exactly if the search finds a spot, for a rectangle of the asked size there, with every other rectangle where it was; it is clear of them and within the texture whenever the atlas is not locked, and otherwise exactly if there is room at that spot; every other id keeps its pixels, but for stale glyphs when there was no room; with too much area there is no id, or the atlas is locked |
| `Atlases.Atlas.AddGlyph` | external/ImGui/imgui_draw.cpp:5129-5147 | the glyph is recorded exactly if the search finds a spot, with its rectangle's coordinates; of that rectangle the same holds |
| `Atlases.Atlas.Paint` | external/ImGui/imgui_draw.cpp:2926-2943 | the pixels of that id change, and those of no other |
| `Atlases.Atlas.UpdateTextures` | external/ImGui/imgui_draw.cpp:2791-2844 | after a frame the list holds, in order, the textures that the frame does not remove, each as its own step leaves it; the current one stays unless the atlas is locked |
| `AtlasRuns.Step` | external/ImGui/imgui_draw.cpp:4013-4375 | what every operation does to entries, glyphs, texture and packer, whether or not it gets stuck, which it does exactly if the search or the repack it needs finds no size |
| `AtlasRuns.StuckExactly` | external/ImGui/imgui_draw.cpp:4013-4375 | what an operation leaves is locked exactly if it gets stuck |
| `AtlasRuns.Run` | external/ImGui/imgui_draw.cpp:4013-4375 | any run goes through exactly these states, up to the first operation that gets stuck, if there is one, and what that one leaves is told as well |
| `AtlasIds.NumberedNow` | external/ImGui/imgui_draw.cpp:4303-4316 | in any atlas in order, every entry in use has the generation that its discards call for |
| `AtlasIds.MoveLasts` | external/ImGui/imgui_draw.cpp:4013-4375 | one operation discards exactly the entry it removes, or the stale glyphs' if it has to make space, each once; it changes no pixels but those it paints and keeps generations in step with discards |
| `AtlasIds.TrailLasts` | external/ImGui/imgui_draw.cpp:4013-4375 | over any run, whatever was in use and not discarded keeps its generation and its size |
| `AtlasIds.PixelsStay` | external/ImGui/imgui_draw.cpp:4013-4375 | and its pixels, unless it was painted |
| `AtlasIds.HandedOut` | external/ImGui/imgui_draw.cpp:4269-4291 | an id is handed out in the form its slot's discards give, and leads to a rectangle of the asked size |
| `AtlasIds.IdMeaning` | external/ImGui/imgui_draw.cpp:4303-4406 | ever after, it leads somewhere exactly while its slot was not discarded, or when that is in use again after a multiple of 1023 discards |
| `AtlasIds.RemovedFor` | external/ImGui/imgui_draw.cpp:4303-4406 | a removed id leads nowhere before its slot was discarded another 1022 times |
| `AtlasIds.IdsDiffer` | external/ImGui/imgui_draw.cpp:4269-4324 | no id is handed out twice without 1023 discards of its slot in between |
| `AtlasIds.LiveIdsApart` | external/ImGui/imgui_draw.cpp:4330-4406 | different ids of a run that lead somewhere lead to rectangles clear of each other |
| `AtlasStuck.GetsStuck` | external/ImGui/imgui_draw.cpp:4013-4375 | six additions and removals leave everything in place in a texture of 512 by 512 that cannot grow; the seventh gets it stuck and hands out an id whose rectangle lies over two others, to which their ids still lead |
| `BakedPools.Pool.Add` | external/ImGui/imgui_draw.cpp:3783-3810 | the new entry is found by its id |
| `BakedPools.Pool.Discard` | external/ImGui/imgui_draw.cpp:3843-3870 | the entry is marked and no longer found; nothing moves |
| `BakedPools.Pool.Collect` | external/ImGui/imgui_draw.cpp:2771-2789 | the live entries in their order, every id leading to the same entry as before |
| `ArcSampling.StepsMinimal` | external/ImGui/imgui_draw.cpp:1163-1181 | no walk over the range in steps of this size has fewer points |
| `ArcSampling.StepUsedIs` | external/ImGui/imgui_draw.cpp:1154-1159 | a given step is used up to a quarter of the circle; one that is not given is the largest that leaves a circle all its segments |
| `ArcSampling.OnCircleIs` | external/ImGui/imgui_draw.cpp:1203-1205 | a point is as far from the centre, in the direction of its sample, as the radius says |
| `ArcSampling.FirstStep` | external/ImGui/imgui_draw.cpp:1166-1181 | what the shortened first step leaves for the last |
| `ArcSampling.Forward` | external/ImGui/imgui_draw.cpp:1194-1207 | as many samples as counted, each at a table index congruent to it |
| `ArcSampling.Backward` | external/ImGui/imgui_draw.cpp:1208-1221 | the same downward |
| `ArcSampling.PathArcToFastEx` | external/ImGui/imgui_draw.cpp:1146-1236 | exactly the reserved points, from the first sample to the last in the smallest number of steps; whole steps, with the rest shared by first and last to within one |
| `BezierPaths.HalvesOnCurve` | external/ImGui/imgui_draw.cpp:1369-1378 | the halves run over the points of the curve |
| `BezierPaths.SubdivisionTiles` | external/ImGui/imgui_draw.cpp:1357-1398 | the flat pieces ascend without overlap and with the dropped smallest ones cover the curve |
| `BezierPaths.SubdivisionFlat` | external/ImGui/imgui_draw.cpp:1357-1398 | the points given are exactly the ends of the pieces that are flat while no larger piece around them is |
| `BezierPaths.FlatClose` | external/ImGui/imgui_draw.cpp:1357-1398 | every point of a piece that counts as flat is close to its chord: its squared distance is below 16/81 of the tolerance for cubic curves and 1/16 for quadratic ones |
| `BezierPaths.CurvedFar` | external/ImGui/imgui_draw.cpp:1357-1398 | a piece that does not count as flat has a control point whose squared distance is a quarter of the tolerance or more |
| `BezierPaths.StraightFlat` | external/ImGui/imgui_draw.cpp:1357-1398 | a piece with distinct ends and its control points on the line between them is flat |
| `BezierPaths.EndGiven` | external/ImGui/imgui_draw.cpp:1357-1398 | the end of the curve is given if and only if one of the ever smaller pieces there is flat |
| `BezierPaths.NothingGiven` | external/ImGui/imgui_draw.cpp:1357-1398 | no point is given if and only if no piece of any size is flat |
| `BezierPaths.AtMost1024` | external/ImGui/imgui_draw.cpp:1357-1398 | at most 1024 points |
| `BezierPaths.CollapsedGivesNothing` | external/ImGui/imgui_draw.cpp:1357-1398 | a curve that is one point gives none |
| `BezierPaths.Path.CubicCasteljau` | external/ImGui/imgui_draw.cpp:1357-1380 | adds the curve's own points at the ends of its flat pieces |
| `BezierPaths.Path.QuadraticCasteljau` | external/ImGui/imgui_draw.cpp:1382-1398 | the same for quadratic curves |
| `BezierPaths.Path.BezierCubicCurveTo` | external/ImGui/imgui_draw.cpp:1400-1414 | points of the curve from the end of the path on, at equal steps or by its shape |
| `BezierPaths.Path.BezierQuadraticCurveTo` | external/ImGui/imgui_draw.cpp:1416-1430 | the same for quadratic curves |
| `GlyphRanges.SetsOneBit` | external/ImGui/imgui.h:3581 | setting a bit of a word sets that one only |
| `GlyphRanges.RunsUnique` | external/ImGui/imgui_draw.cpp:5056-5068 | there is only one list of maximal runs of a set |
| `GlyphRanges.ReadBack` | external/ImGui/imgui_draw.cpp:5049-5068 | what a list of runs covers when read back, unless its first run starts at zero |
| `GlyphRanges.RangesBuilder.constructor` | external/ImGui/imgui.h:3578-3579 | a cleared builder |
| `GlyphRanges.RangesBuilder.GetBit` | external/ImGui/imgui.h:3580 | whether the codepoint is in the set |
| `GlyphRanges.RangesBuilder.SetBit` | external/ImGui/imgui.h:3581-3582 | adds one codepoint |
| `GlyphRanges.RangesBuilder.AddRanges` | external/ImGui/imgui_draw.cpp:5049-5054 | adds exactly the supported codepoints of the ranges up to the terminator |
| `GlyphRanges.RangesBuilder.BuildRanges` | external/ImGui/imgui_draw.cpp:5056-5068 | lists exactly the maximal runs, in order, and a terminator |
| `GlyphRanges.NulLosesAll` | external/ImGui/imgui_draw.cpp:5049-5068 | a set of two codepoints that comes back empty |
| `GlyphRanges.Restore` | external/ImGui/imgui_draw.cpp:5049-5068 | building and adding restores the set if and only if codepoint 0 is not in it |
| `WordWrap.BlanksAndSeparators` | external/ImGui/imgui_draw.cpp:5428-5458 | which codepoints are blanks, and after which ones a line may be broken |
| `WordWrap.Text.ShownGrows` | external/ImGui/imgui_draw.cpp:5464-5470 | the width without trailing blanks never shrinks along a line |
| `WordWrap.Text.ScanNewWord` | external/ImGui/imgui_draw.cpp:5447-5470 | what the widths, word ends and break candidates stand for when a word starts |
| `WordWrap.Text.ScanWord` | external/ImGui/imgui_draw.cpp:5441-5470 | and when it goes on |
| `WordWrap.Text.ScanBlank` | external/ImGui/imgui_draw.cpp:5428-5438 | and at a blank |
| `WordWrap.Text.ScanLine` | external/ImGui/imgui_draw.cpp:5399-5473 | the line is scanned to its end, or to where it must be broken, before blanks or behind them as the flag asks |
| `WordWrap.Text.WrapPosition` | external/ImGui/imgui_draw.cpp:5377-5478 | past the start unless at a newline or the end; broken only if need be, where it fits and is between words, or in a word too long for a line just before it gets too wide, or after one codepoint if nothing fits; no sooner than blanks and punctuation make it; before the blanks, or with the flag behind them unless what follows does not fit |
| `WordWrap.Text.NextLineStart` | external/ImGui/imgui_draw.cpp:5364-5372 | past all spaces and tabs, unless blanks are kept, and then past one newline if there is one |
| `WordWrap.Text.MeasureLines` | external/ImGui/imgui_draw.cpp:5497-5559 | the measuring loop ends, having gone through the lines that wrapping gives, one after another, none of them as wide as the greatest width, and after one if it was to stop at a newline |
| `WordWrap.Text.CalcTextSize` | external/ImGui/imgui_draw.cpp:5485-5572 | the size is that of the widest of these lines, and of as many as there are; measuring ends at the end asked for, after one line if that was asked for, or exactly where the next codepoint would reach the greatest width |

## Left out

- Everything of Coroute itself (router, HTTP/2, coroutines, examples, benchmark scripts): the drawing library is the only code modelled.
- 32-bit overflow of sizes, offsets and `_VtxCurrentIdx`, and the 20-bit width of an index entry's target: counts are unbounded, apart from the 16-bit indices and rectangle fields and the 32-bit checksum.
- Floating-point rounding: coordinates are reals, or integers where areas are added up; the repack threshold of 20 percent is exact.
- Geometric predicates, normals, anti-aliasing offsets, trigonometry and the tessellation error: parameters.
- Aliasing of buffers while the splitter swaps them by `memcpy`, and the storage that vectors keep: buffers are sequences, so a swap is an assignment; node links, spans, pixels, temporary slots and bit words are arrays.
- The rectangle packer: any function of its target, the boxes in it and the size asked for; what else a packer may remember is part of the boxes' order.
- Memory outside the stream and the output during decompression: input positions are read from a total function, so reading past the end of a truncated stream is not modelled; `length` is unused in the source as well.
- A stream that declares length 0 and is well formed returns 0, as failure does.
- `IM_ASSERT`: a precondition, or treated as stripped where the code has a fallback.
- `ClearFreeMemory`, `_ResetForNewFrame` after the first frame, `CloneOutput`, and the remaining shape, image and text primitives, which go through the same reservations.
- Anti-aliased convex fills: their fringe is that of the concave ones.
- `MaxRectBounds`, `UsedRect`, pixel formats, `TexIsBuilt`, and the notification of draw lists about a new texture or new line and white-pixel coordinates.
- Glyphs carry only what concerns their rectangle; which sizes are stale is a flag on each, and the font loader, rasterisation, fallback glyphs and the legacy atlas build are not modelled.
- `ImFontAtlasTextureCompact` and the size estimate: a repack to another size, of which `RepackTo` is every case; sizes of more than 65536 pixels a side are left out.
- UTF-8: text is a sequence of codepoints with non-negative advances, so the forced break is one whole codepoint; advances do not change while a text is measured.
- Style tables, embedded font data, cursor bitmaps and codepoint tables.
- Atlases.Atlas.Repack: starts from rectangles that lie within the texture; once a rectangle was packed outside it while the atlas was locked, copying its pixels would read outside the texture, and a repack from there is not modelled.
- AtlasRuns.Run: ends with the operation that gets stuck; what comes after it is told by `AddRect` and `AddGlyph`, which also start from a locked atlas.
- ConcaveFills.AddConcavePolyFilled: the triangles are cut in one loop and written in another, where the code does both in one, and the normals start with the first edge instead of the last.
- Hash functions, the file output and the text encodings of the compressor: which places are tried for a match is arbitrary; the cut of a match longer than 65536 bytes is dead code in the source.
