# A verified model of WebRender's hard parts

WebRender speeds up simple pictures with clever bookkeeping. This project states, for each of the
parts below, what the simple picture is, models the code that speeds it up in the form the code has
(loops, stacks, buffers and fields that are updated in place), and proves that the two agree.

* **Batching** (`BatchKeys`, `AlphaBatching`, `OpaqueBatching`, `BatchMerging`, `BatchBuilding`,
  `Painter`, `Multipass`, `BatchDrawing`, `TaskDrawing`). Submissions come in painter's order and are
  moved into earlier batches; opaque items are drawn first with the depth buffer; some text batches are
  drawn in three passes over all their instances; builders are merged. The picture of one builder is the
  one that drawing every submission in its order would give. Merging can spoil it, and it is told exactly when.
* **The software GL** (`GlBits`, `GlTexture`, `GlSpans`, `GlRows`, `GlRuns`, `GlTransfer`, `GlBlend`,
  `GlComposite`, `GlSurfaces`, `GlLayers`). A clear only resets a bitmap and a counter, rows are
  filled when touched, and spans are depth-tested eight pixels at a time with runs drawn or skipped
  in one go. What a reader sees is the picture of a device that clears at once and draws one pixel at a time.
* **Clips** (`ClipItems`, `ClipChains`, `ClipStores`, `ClipStacks`, `ClipTiles`, `ClipMasks`). A
  list of clips is reduced to one rectangle and the clips that still matter, twice for segmented
  primitives, and what is left is drawn into a mask in two passes and in tiles. The same points are
  admitted, and the mask is the product of the clips' coverages.
* **The spatial tree** (`Matrices`, `SpatialTrees`, `SpatialOrders`, `SpatialWalks`,
  `SpatialUpdates`, `SpatialClimbs`, `SpatialTransforms`, `SpatialPartings`). A traversal with an
  explicit stack threads a state that keeps transforms as a scale and offset inside shared coordinate
  systems. It is the recursive traversal, and every node lands where multiplying the matrices of all
  its ancestors puts it.
* **Commit graph** (`CommitGraph`): in-place contraction of uninteresting changesets.
* **Codec** (`PeekPoke`): a binary stream without length prefixes, with a red zone at its end.

`Options`, `Integers`, `Geometry`, `Sequences` and `Transforms2D` hold what the parts share.
Coordinates, colours of masks and matrix entries are reals: rounding of floats is not modelled.
Integers are unbounded except where a width matters, and there it is written out (16-bit depth cells
and their signed comparison, 32-bit clear words and bitmaps, 16-bit blend lanes, byte packing).

Automatic induction is switched off on every lemma, so each induction is written out in its proof.

## Assumptions taken over from the source

* The fast path of the blended batch list requires that an item with the current z id and a
  compatible key has the current rectangle; the source asserts this in debug builds.
* The painter's equivalence is stated at a point where z ids do not decrease and where two
  submissions with one z id are both blended if they overlap. Pixels lie in the bounding rectangle.
* Batches with the blend mode `SubpixelWithBgColor` are drawn in three passes over the whole batch
  (webrender/src/renderer.rs:3843-3866). That is drawing each instance with its passes in turn exactly
  where no two instances of a batch show, that is, cover the point and pass the depth test that the
  opaque pass left (`PassesAgreeIff`, `BatchesAgreeIff`). The look-back of a builder sees to that for
  instances of different z ids; instances of one z id, such as overlapping glyphs of one text, are drawn
  together by design.
* Merging a second builder's batches does not look for overlap (webrender/src/batch.rs:424-443).
  `MergesDrawTaskIff` says exactly when the merged batches still draw a task's picture, on the lists
  before the merge: no two of the task's multipass batches that show at the point land in one batch
  (`LandApart`, with `Landings` telling where each batch goes). `MergeTexts` is a run of two builders,
  through their own methods, after which the passes of two texts, one over the other, interleave.
* The codec copies numbers as the host holds them (peek-poke/src/lib.rs:123-127); the host is taken to
  be little-endian, as it is for the 32-bit words of textures.
* The commit graph is acyclic: its revisions carry a rank, as Mercurial's revision numbers do.
* Scale and offset transforms have positive scales where rectangles and clips are mapped.
  `ScaleOffset::from_transform` (webrender/src/util.rs:137-165) refuses negative scales; it accepts a
  zero scale, which has no inverse and under which the code divides by zero, and that is left out.
* The last columns skipped by a partial clear are clamped from the rectangle's first row
  (swgl/src/gl.cc:1669). The model follows the code, and `UploadSpoilsIff` says when cells beside the
  rectangle go stale; `UploadBesideCleared` is a case where their value changes.
* `Composite` hands the unflipped rectangle to the preparation of its destination, and does so for
  blended requests too (swgl/src/gl.cc:2940-2941). The model follows the code: covered rows of a
  flipped request may stay owed and show the clear, cells beside the covered ones may go stale, and a
  blended request onto an owed row blends with what the storage held before the clear. `FaithfulIff`
  says exactly when a request shows the source over what a reader saw, on the bitmap, the rectangle
  and the mode; `BlendOntoCleared` and `FlipOntoCleared` are runs where it does not.
* `get_relative_transform` flattens on the climb where `world_transform` flattens on the way in
  (webrender/src/clip_scroll_tree.rs:283-288, webrender/src/spatial_node.rs:385-388). On chains of flat
  frames the two agree as long as the target does not flatten or the last matrix leaves z alone
  (`FlatChain`), and exactly then (`ClimbTelescopesIff`). Out of a 3D group inside a flattening system
  they agree exactly if the group's inner frames together leave z alone (`GroupTelescopesIff`).
  `FlatteningParts` is a tree of three frames that, once updated, shows them apart.

## Model

| member | source | states |
|---|---|---|
| BatchKeys.CompatibilityIsNotTransitive | webrender/src/batch.rs:105-153 | Batch keys exist that are pairwise compatible except for the outer two, so an item may join a batch without being compatible with its members |
| BatchKeys.CompatibleIff | webrender/src/batch.rs:105-153 | Two keys can be drawn together exactly if kind and blend mode agree and no slot of the three holds two different textures |
| AlphaBatching.InsertInOrder | webrender/src/batch.rs:176-254 | A late instance may go in front of others exactly when it overlaps none of them |
| AlphaBatching.AppendKeepsOrder | webrender/src/batch.rs:189-242 | Appending to an earlier batch keeps overlapping instances in submission order if nothing in later batches meets the rectangle, and loses no instance |
| AlphaBatching.CandidateIff | webrender/src/batch.rs:189-231 | Which batches may take an item, by the fields of the keys and the points of the rectangles: inside the window, drawable together, and nothing drawn later shares a point with the item |
| AlphaBatching.AlphaBatchList.FindMultipassBatch | webrender/src/batch.rs:192-208 | The look-back for multipass items finds the latest batch in the window that is compatible and has nothing in the way, itself included |
| AlphaBatching.AlphaBatchList.FindDefaultBatch | webrender/src/batch.rs:212-230 | The look-back for ordinary blended items finds the latest compatible batch with nothing in the way after it |
| AlphaBatching.AlphaBatchList.SelectBatch | webrender/src/batch.rs:189-231 | The choice by blend mode: no earlier batch for advanced modes that break batches, else the latest candidate |
| AlphaBatching.AlphaBatchList.SetParamsAndGetBatch | webrender/src/batch.rs:176-254 | Any selection, by the fast path for one z id or by look-back, leaves every drawn instance where it was and keeps the invariant that lets the next fast path be taken |
| AlphaBatching.AlphaBatchList.PushInstance | webrender/src/batch.rs:506-516 | Pushing into the selected batch adds one instance, keeps all overlapping instances in submission order, and keeps instances of different z ids apart in multipass batches |
| AlphaBatching.AlphaBatchList.PushSingleInstance | webrender/src/batch.rs:506-516 | One blended submission keeps the invariant: overlapping instances appear in submission order, for every look-back; every instance agrees with its batch in kind, blend mode and all three textures |
| OpaqueBatching.OpaqueBatchList.SelectBatch | webrender/src/batch.rs:284-305 | An item above the area threshold looks at the last batch only, any other at the look-back window; the latest compatible batch is taken |
| OpaqueBatching.OpaqueBatchList.SetParamsAndGetBatch | webrender/src/batch.rs:273-320 | The current batch is kept while it is compatible; a batch is selected or started otherwise; no instance moves |
| OpaqueBatching.OpaqueBatchList.PushSingleInstance | webrender/src/batch.rs:506-516 | One opaque submission adds exactly one instance, to a batch that agrees with it in kind, blend mode and all three textures |
| OpaqueBatching.OpaqueBatchList.Finalize | webrender/src/batch.rs:322-334 | In every batch the last instance comes first, and no instance is lost |
| Painter.PaintersEquivalence | webrender/src/renderer.rs:3707-3772 | Opaque instances first with depth test and depth write, then blended ones in turn with the depth test, give the colour of painting all submissions in order; batches drawn pass by pass are the subject of BatchDrawing |
| Painter.TopmostWins | webrender/src/renderer.rs:3707-3748 | In whatever order opaque batches are drawn, the depth buffer ends with the last submitted opaque instance |
| Painter.PaintFromTopmost | webrender/src/renderer.rs:3750-3772 | What the depth test lets through after the opaque pass is what painting puts above the topmost opaque instance |
| Painter.OpaquePassTop | webrender/src/renderer.rs:3712-3741 | The closest instance survives the opaque pass |
| Painter.OpaquePassDepth | webrender/src/renderer.rs:3712-3741 | The depth that the opaque pass leaves is that of the last opaque submission, which a caller can tell from the history |
| Painter.AlphaPassHidden | webrender/src/renderer.rs:3750-3772 | Blended instances behind the topmost opaque one fail the depth test |
| Painter.PaintNoOpaque | webrender/src/renderer.rs:3750-3772 | Without opaque instances above, the alpha pass is painting |
| Painter.NothingOpaqueAbove | webrender/src/renderer.rs:3750-3772 | What is submitted after the topmost opaque instance is blended and passes the depth test |
| Painter.OrderedShowsHistory | webrender/src/batch.rs:176-254 | A reordered list that keeps overlapping instances in order shows the submission order at every point |
| Geometry.IntersectsIff | webrender/src/batch.rs:196-223 | Rectangles with area pass the overlap test exactly if they share a point |
| Painter.AscendingUnique | webrender/src/batch.rs:176-254 | Two lists of the same instances in submission order are the same list |
| Multipass.BatchInTurn | webrender/src/renderer.rs:3843-3866 | Drawing a batch pass by pass is drawing its instances, each with its passes in turn, at a point where at most one of them shows |
| Multipass.PassesAgreeIff | webrender/src/renderer.rs:3843-3866 | For one batch: at such points this holds for every drawing; at any other point the drawing that writes down every pass tells the two apart |
| Multipass.BatchesInTurn | webrender/src/renderer.rs:3774-3871 | So for a whole list of batches, ordinary and multipass, under the depth test |
| Multipass.BatchesAgreeIff | webrender/src/renderer.rs:3774-3871 | For a list of batches: for every drawing if no two instances of a multipass batch show, and for the drawing that writes down every pass only then |
| Multipass.OneZ | webrender/src/batch.rs:192-208 | What the look-back for multipass items is for: the instances of one batch that cover a point share one z id |
| Multipass.SafeIsOnce | webrender/src/batch.rs:192-208 | A batch that the look-back filled covers a point once if each z id does |
| BatchMerging.Position | webrender/src/batch.rs:410-429 | The first compatible batch at or after a position, or none |
| BatchMerging.MergedIs | webrender/src/batch.rs:370-373 | A merged batch holds both batches' instances and asks for a feature exactly if one of them did |
| BatchMerging.MergesIntoFirst | webrender/src/batch.rs:409-442 | One merged batch goes into the first one from a position on whose key agrees on all fields, and the next may join it; else to the end, and the next goes behind it |
| BatchMerging.AlphaBatchContainer.MergeOpaque | webrender/src/batch.rs:409-422 | After merging, the opaque instances are the multiset union, each batch in the first that takes it |
| BatchMerging.AlphaBatchContainer.MergeOneAlpha | webrender/src/batch.rs:426-442 | One merged batch goes into the first compatible batch at or after where the previous one went, else to the end; the next starts there |
| BatchMerging.AlphaBatchContainer.MergeAlpha | webrender/src/batch.rs:424-443 | After merging, the blended instances are a shuffle of the container's and the builder's sequences, each in its own order; which batch holds what is told exactly |
| BatchMerging.MergeOneStep | webrender/src/batch.rs:426-442 | What keeps the shuffle: after one merged batch the lists up to it interleave old and new instances, and the lists behind it are untouched |
| BatchMerging.AlphaBatchContainer.Merge | webrender/src/batch.rs:406-443 | Merging is an order-preserving interleaving of blended instances and a multiset union of opaque ones |
| BatchMerging.MergeStep | webrender/src/batch.rs:426-442 | Inserting a batch behind everything merged before it extends the shuffle |
| BatchMerging.ShuffleFilter | webrender/src/batch.rs:406-443 | Where one side contributes nothing, a shuffle shows the other side unchanged |
| BatchBuilding.AlphaBatchBuilder.PushSingleInstance | webrender/src/batch.rs:506-541 | Every submission, opaque or blended, keeps the builder faithful to its history; only the list of its blend mode changes |
| BatchBuilding.AlphaBatchBuilder.Route | webrender/src/batch.rs:518-541 | The blend mode sends an item to the opaque or the blended list, and the two lists stay faithful to the history |
| BatchBuilding.AlphaBatchBuilder.Build | webrender/src/batch.rs:485-504 | A builder with a scissored task makes a container of its own, with its batches and rectangles; any other is merged; either holds the builder's history in batches that suit their instances |
| BatchBuilding.BuilderPaintsHistory | webrender/src/batch.rs:176-334 | After any run of submissions the two batch lists paint the submission order |
| BatchBuilding.HistoryGrows | webrender/src/batch.rs:506-541 | The invariant of a run: one more submission keeps the lists faithful to the history |
| BatchBuilding.BuildAll | webrender/src/batch.rs:485-504 | Any number of unscissored builders, built one after the other, make a run of merges from an empty container; the blended batches are those of merging their lists in turn |
| BatchBuilding.MergeFaithfulAt | webrender/src/batch.rs:406-443 | At a point that one side of a merge leaves alone, the container is faithful to the other side |
| BatchBuilding.MergePaintsEachTask | webrender/src/batch.rs:406-504 | After any run of merges, at a point that one task alone covers, the container paints that task's history |
| BatchDrawing.BuilderDrawsHistory | webrender/src/renderer.rs:3707-3871 | The batches of one builder, drawn as the renderer draws them, paint the submission order, if no z id covers the point twice with multipass instances |
| BatchDrawing.ContainerDrawsIff | webrender/src/renderer.rs:3707-3871 | A container that is faithful to a history draws it exactly where no two instances of a multipass batch show |
| BatchDrawing.OneTextIsOnce | webrender/src/batch.rs:424-443 | However batches are merged, no two instances of a batch show where at most one multipass submission covers the point |
| BatchDrawing.MergesDrawEachTask | webrender/src/batch.rs:406-504 | A case told from the history alone: at a point of one task that at most one of its multipass submissions covers, the renderer draws its picture after any run of merges |
| BatchDrawing.MergeIntoEmpty | webrender/src/batch.rs:424-443 | The first builder's batches stay as they are |
| BatchDrawing.MergeOnceIff | webrender/src/batch.rs:424-443 | Exactly when a merge leaves no multipass batch with two instances that show: neither list has one, what lands in an old batch has room there, and what lands together does not show together |
| BatchDrawing.MergeKeepsOnce | webrender/src/batch.rs:424-443 | Merging builders that show nothing at a point keeps this as it is, both ways |
| BatchDrawing.ContainerOnceIff | webrender/src/batch.rs:424-443 | After any run of merges in which one list alone shows at a point: exactly when its batches were safe and those that show landed apart |
| BatchDrawing.MergesDrawTaskIff | webrender/src/batch.rs:406-504 | After any run of merges, at a point that one task alone touches: exactly when the merged container draws that task's picture, on the lists before that task was merged |
| BatchDrawing.MergesDrawBuilderIff | webrender/src/batch.rs:406-504 | For a task that a builder batched, where the landings alone decide |
| TaskDrawing.PushAll | webrender/src/batch.rs:506-541 | Any list of submissions whose z ids each stand for one rectangle meets what the builder asks for, and becomes its history |
| TaskDrawing.DrawTask | webrender/src/batch.rs:485-541 | From the list of submissions to the screen: a builder with a container of its own draws the submissions in their order, at every point that is well layered and that no z id covers twice with text |
| TaskDrawing.DrawTasks | webrender/src/batch.rs:485-504 | Any number of builders built into one container: exactly when the renderer draws each task's picture |
| TaskDrawing.MergedTogether | webrender/src/batch.rs:424-443 | Two overlapping texts, kept in two batches by the look-back, land in one batch of a container that already holds a text |
| TaskDrawing.TextsInterleave | webrender/src/renderer.rs:3843-3866 | There their passes interleave: the drawing is not that of one text after the other |
| TaskDrawing.MergeTexts | webrender/src/batch.rs:424-443 | The run itself: the texts are pushed into two builders, which are built into one container |
| GlBits.CtzRun | swgl/src/gl.cc:1677-1690 | Counting trailing zeros of a word finds a run of zeros ending in a one |
| GlBits.ZerosSetBit | swgl/src/gl.cc:2599-2600 | Setting a zero bit lowers the number of zero bits by exactly one |
| GlTexture.StrideBytes | swgl/src/gl.cc:88-212 | Rows are padded to the next multiple of four bytes, for every cell size |
| GlTexture.RowAtIsProduct | swgl/src/gl.cc:1623 | Row offsets, added up row by row, are the product of stride and row |
| GlTexture.LaneOfChunk | swgl/src/gl.cc:1624 | Every 1-, 2- or 4-byte lane of the 32-bit fill word is the clear value |
| GlTexture.Texture.constructor | swgl/src/gl.cc:218-231 | Storage has every row and sixteen bytes more, and no clear is owed |
| GlTexture.Texture.EnableDelayedClear | swgl/src/gl.cc:188-198 | Every row reads as the clear value, the counter is the number of owed rows, and bits at and above the height are set |
| GlTexture.Texture.FillCells | swgl/src/gl.cc:1597-1640 | Word fills and the sub-word tail set exactly the cells asked for |
| GlTexture.Texture.ClearBuffer | swgl/src/gl.cc:1613-1640 | Exactly the cells of the rows and columns, minus the skipped columns, are set, for every element size, with rows collapsed where possible |
| GlTexture.Texture.ScanWord | swgl/src/gl.cc:1674-1699 | The scan of a bitmap word by runs of zeros and ones clears exactly the rows whose bit is zero, terminates, and never shifts by the word's width |
| GlTexture.Texture.ClearWords | swgl/src/gl.cc:1672-1700 | All words of a range are scanned; the counter stays the number of owed rows |
| GlTexture.Texture.ForceClear | swgl/src/gl.cc:1656-1702 | Forced clears materialise exactly the owed rows of the touched words, outside the skipped columns, and disable the delayed clear when nothing is owed |
| GlTexture.Texture.PrepareTexture | swgl/src/gl.cc:1704-1721 | Without a rectangle the storage becomes the logical image and nothing is owed; with one only stale cells change |
| GlTexture.Texture.NothingOwed | swgl/src/gl.cc:1658-1660 | The counter is zero exactly when no row is owed |
| GlTexture.Texture.MarkRow | swgl/src/gl.cc:2591-2620 | Marking a row sets its bit and lowers the counter, for that row only |
| GlSpans.FragmentShader.DrawSpan | swgl/src/program.h:91-137 | A drawn span advances the shader by its length and colours each cell with its own pixel |
| GlSpans.CommitOutput | swgl/src/gl.cc:2209-2230 | One chunk: the shader moves by four pixels and only unmasked, undiscarded pixels are stored |
| GlSpans.CheckDepth8 | swgl/src/gl.cc:2067-2092 | The eight-pixel test tells which pixels fail, writes depth for those that pass, and sums up none, all or some |
| GlSpans.ShadeChunk | swgl/src/gl.cc:2431-2491 | A chunk keeps the invariant: pending run and pending skip are never both non-zero, and the shader lags by exactly the pending one |
| GlSpans.FlushPending | swgl/src/gl.cc:2433-2453 | Pending work is drawn or skipped so that the shader catches up exactly |
| GlSpans.DrawDepthSpan | swgl/src/gl.cc:2424-2497 | The eight-wide loop equals the per-pixel depth loop over the span rounded down to eight: colours, depths and the shader's position |
| GlSpans.DrawnThen | swgl/src/gl.cc:2424-2497 | Drawing adjacent stretches one after the other is drawing the whole |
| GlRows.CheckDepth4 | swgl/src/gl.cc:2094-2115 | The four-pixel test, with a partial span and without writes when pixels may be discarded |
| GlRows.CommitDepth | swgl/src/gl.cc:2259-2281 | A four-pixel commit with depth test and discard equals four single pixels |
| GlRows.DrawDepthTested | swgl/src/gl.cc:2635-2681 | Any span with the depth test, eight- and four-wide loops and tail together, equals the per-pixel loop |
| GlRows.DrawPlain | swgl/src/gl.cc:2655-2689 | Any span without the depth test equals the per-pixel loop |
| GlRows.Rasterizer.PrepareDepthRow | swgl/src/gl.cc:2590-2614 | The owed clear of a depth row decides the test for the whole span, is fused with the depth writes, or is carried out: in each case with the effect of testing each pixel |
| GlRows.Rasterizer.PrepareColorRow | swgl/src/gl.cc:2615-2627 | The owed clear of a colour row is carried out, except where every pixel is sure to be replaced |
| GlRows.Rasterizer.DrawRow | swgl/src/gl.cc:2583-2691 | One row: whatever clears are owed, both logical images change as under eager clears and single pixels |
| GlRuns.BiasKeepsOrder | swgl/src/gl.cc:1807-1817 | The signed test on biased depths is the unsigned test |
| GlRuns.StepEffect | swgl/src/gl.cc:1777-2691 | One command of the eager device, on its fields: a pixel of a span that is kept and passes the unsigned test is blended or replaced, its depth written if tested and masked in; a one-byte target keeps byte 2 of the clear colour; no other pixel changes |
| GlRuns.RunEffects | swgl/src/gl.cc:1777-2691 | Each frame of an eager run comes from the one before by one such effect on every pixel |
| GlRuns.Device.Clear | swgl/src/gl.cc:1777-1818 | An unscissored clear marks all rows as owed and shows as an eager clear |
| GlRuns.Device.Execute | swgl/src/gl.cc:1777-1849 | Every command shows as its eager counterpart, and has its effect on every pixel that a reader sees; a span binds its program, its pipeline and the depth test first |
| GlRuns.Device.Run | swgl/src/gl.cc:1777-2691 | Lazy clear refines eager clear over any run of clears, spans and read-backs, each span with a program of its own and with or without the depth test, for colour and depth after every step |
| GlTransfer.SwizzleTwice | swgl/src/gl.cc:1149-1160 | Swapping red and blue twice is the identity |
| GlTransfer.CopyRow | swgl/src/gl.cc:1149-1160 | The four-wide loop and its tail convert exactly the cells of the row |
| GlTransfer.ClientPixelAt | swgl/src/gl.cc:1203-1217 | Where a pixel of the rectangle lies in the client's memory |
| GlTransfer.TexSubImage2D | swgl/src/gl.cc:1184-1218 | For 32-bit and for one-byte textures, the rectangle shows the client's pixels for any row length, with bytes 0 and 2 exchanged unless the client's are BGRA or single bytes; other cells keep their logical value unless they are stale |
| GlTransfer.ReadPixels | swgl/src/gl.cc:1820-1849 | The client gets the logical image, whatever is owed, with bytes 0 and 2 exchanged under the same condition |
| GlTransfer.UploadThenRead | swgl/src/gl.cc:1184-1218 | Uploading and reading back gives the uploaded pixels under any pending clear, in both formats |
| GlTransfer.UploadSpoilsIff | swgl/src/gl.cc:1656-1702 | Exactly when an upload under a pending clear makes cells outside its rectangle stale; their value changes where the storage differs from the clear colour |
| GlTransfer.UploadBesideCleared | swgl/src/gl.cc:1656-1702 | A run where it changes: of two rows owed a clear to zero, uploading the first brings up what the second held |
| GlBlend.NoOverflow | swgl/src/gl.cc:2166-2168 | No 16-bit lane of the blend overflows |
| GlBlend.BlendOrder | swgl/src/gl.cc:2957-2960 | For premultiplied pixels colour lanes stay below the alpha lane, which fits in eight bits |
| GlBlend.BlendPremultiplied | swgl/src/gl.cc:1985-1993 | Premultiplied over premultiplied is premultiplied, and saturating and truncating packs agree |
| GlBlend.BlendIsSourceOver | swgl/src/gl.cc:2957-2960 | Channel by channel, a premultiplied blend is source plus destination minus the destination's share under the source's alpha |
| GlBlend.OpaqueReplaces | swgl/src/gl.cc:2957-2960 | A source pixel of full alpha replaces any pixel |
| GlBlend.TransparentKeeps | swgl/src/gl.cc:2957-2960 | An empty source pixel leaves any pixel as it is |
| GlBlend.PacksAgreeIff | swgl/src/gl.cc:1985-1993 | The packs agree on a blended lane exactly when it fits in eight bits |
| GlComposite.ClipRowsExact | swgl/src/gl.cc:2924-2939 | Row clipping keeps exactly the row pairs in bounds on both sides |
| GlComposite.BlendRow | swgl/src/gl.cc:2955-2977 | The four-wide loop with its tail of one to three pixels is the per-pixel formula, and no load leaves the storage |
| GlComposite.CompositeRows | swgl/src/gl.cc:2942-2981 | Flipped or not, the destination's storage becomes the pixel by pixel picture of the unclipped request |
| GlComposite.OverPixel | swgl/src/gl.cc:2901-2982 | A request, on its fields: which source pixel lands on a pixel, flipped or not, and that it replaces it or is blended over it |
| GlSurfaces.FaithfulIff | swgl/src/gl.cc:2901-2982 | A request shows the source over what a reader saw, whatever 32-bit pixels storage and source hold, exactly when no covered row stays owed, nothing goes stale beside the covered pixels, and a blended request meets no owed row |
| GlSurfaces.UnflippedKeepsIff | swgl/src/gl.cc:2940-2941 | For an unflipped request: exactly when no neighbouring row of its bitmap words is owed, and an owed row of its own is overwritten up to the last skipped column |
| GlSurfaces.StillOwedIff | swgl/src/gl.cc:2940-2941 | A covered row stays owed exactly when the request is flipped and no bitmap word of the unflipped rectangle holds the row |
| GlLayers.Composite | swgl/src/gl.cc:2901-2982 | What a reader of the destination sees after the call, for any clears that are pending on either texture, in terms of what it saw and what the storage held before; under the condition of FaithfulIff, at each pixel the source pixel that lands there, over the old one |
| GlLayers.BlendOntoCleared | swgl/src/gl.cc:2940-2941 | A run: a transparent pixel blended onto a cleared texture shows what the storage held before the clear |
| GlLayers.FlipOntoCleared | swgl/src/gl.cc:2940-2948 | A run: a flipped copy onto a cleared texture does not show where it was put, and old storage comes up at the other end |
| GlLayers.CompositeAll | swgl/src/gl.cc:2901-2982 | Any number of calls, one after the other, show all layers over the destination's picture, if each meets the condition on the rows that those before it leave owed |
| GlLayers.LayersOver | swgl/src/gl.cc:2901-2982 | In that picture every layer lies over those before it, pixel by pixel |
| GlLayers.LayersPremultiplied | swgl/src/gl.cc:2953-2981 | Over any sequence of premultiplied layers the destination stays premultiplied, whatever way the platform packs |
| Transforms2D.AccumulateMaps | webrender/src/util.rs:210-221 | Accumulating applies the other transform first |
| Transforms2D.InverseMaps | webrender/src/util.rs:176-187 | The inverse maps points back |
| Transforms2D.MapRectContains | webrender/src/util.rs:223-234 | A mapped rectangle holds a point exactly if the rectangle holds the point mapped back |
| Transforms2D.UnmapRectContains | webrender/src/util.rs:236-247 | The same for unmapping |
| ClipItems.InnerRectInside | webrender/src/util.rs:511-545 | The safe inner rectangle lies inside the rounded rectangle |
| ClipItems.InnerRectLargest | webrender/src/util.rs:511-545 | It is the largest rectangle at whole distances from the corner that avoids the rows and columns of all four radii, and there is none only if there is no such rectangle |
| ClipItems.RoundedByCorner | webrender/src/clip.rs:1474-1510 | Where the corners do not overlap, in each corner its own ellipse decides, and elsewhere nothing is cut off |
| ClipItems.OfferedIff | webrender/src/clip.rs:1280-1295 | Which clips bind a point by the rectangle that they offer |
| ClipItems.ImageAdmits | webrender/src/clip.rs:1280-1295 | A repeated image's mask decides everywhere, any other's inside its rectangle |
| ClipItems.GetLocalClipRect | webrender/src/clip.rs:1280-1295 | The rectangle that a clip offers holds every point it admits, and is exact for an inclusive rectangle |
| ClipItems.GetClipResult | webrender/src/clip.rs:1361-1454 | Accept means that every point of the region is admitted, reject that none is |
| ClipItems.ClipResultIff | webrender/src/clip.rs:1361-1454 | Exactly when each answer is given, for every kind of clip, by the points of the region |
| ClipChains.ConvertCorrect | webrender/src/clip.rs:290-318 | The combined scale and offset carries points of the primitive to where the clip expects them |
| ClipChains.NarrowMeaning | webrender/src/clip.rs:1555-1583 | One clip narrows the rectangle without losing an admitted point, and settles an inclusive rectangle |
| ClipChains.GatherMeaning | webrender/src/clip.rs:714-743 | After collecting a list of clips, rectangle and list together admit what the clips admit; an empty rectangle means nothing shows |
| ClipChains.GatherExactly | webrender/src/clip.rs:714-743 | The collected rectangle is exactly what the first rectangle and those of the clips that bind have in common |
| ClipChains.ResultMeaning | webrender/src/clip.rs:817-834 | The quick test, made in the clip's space, speaks about the primitive's points |
| ClipChains.RectangleResult | webrender/src/clip.rs:817-834 | For a rectangle of the primitive's system the quick test is exact: accepted if it admits the whole region, rejected if it admits none of it, and open if it cuts it |
| ClipChains.SiftMeaning | webrender/src/clip.rs:813-891 | Kept clips say the same as all clips over the region; rejection means nothing shows; without a mask only settled clips are kept |
| ClipChains.SiftFlags | webrender/src/clip.rs:319-332 | Kept instances carry true flags, and the chain is non-local exactly if a clip of another spatial node was looked at |
| ClipChains.SiftIsExact | webrender/src/clip.rs:813-891 | A clip is kept exactly if its quick test leaves it open, in the order of the list; the list is rejected exactly if one test rejects |
| ClipChains.SiftMask | webrender/src/clip.rs:867-884 | A mask is asked for exactly if a kept clip is not an inclusive rectangle of the primitive's system |
| ClipStores.BuildMeaning | webrender/src/clip.rs:778-908 | A chain instance admits the same points of the primitive as the active clips; without a mask its rectangle alone decides; none means nothing shows or a mapping failed |
| ClipStores.BuildRecords | webrender/src/clip.rs:801-905 | The picture rectangle is where the picture shows what the local rectangle leaves of the primitive; the chain is non-local exactly if a clip of another spatial node was looked at; the flags are true |
| ClipStores.BuildKeeps | webrender/src/clip.rs:789-905 | Exactly when there is no instance: nothing is left of the primitive, a mapping fails, or a quick test rejects; and exactly which clips are kept |
| ClipStores.ReductionMeaning | webrender/src/clip.rs:714-908 | The same from the list of clips to the chain instance |
| ClipStores.OneSystemSound | webrender/src/clip.rs:303-318 | Clips of one coordinate system never use the unmodelled test |
| ClipStores.ReduceTwice | webrender/src/prim_store/mod.rs:3890-3917 | Reducing a reduced chain for a segment still speaks of the original clips |
| ClipStores.ClipStore.AddClipChainNode | webrender/src/clip.rs:692-703 | A new node goes to the end, so that no id given out before changes what it stands for |
| ClipStores.ClipStore.AddClipNodeToCurrentChain | webrender/src/clip.rs:1536-1591 | One clip is pushed with its conversion and the rectangle narrows, or false is returned and nothing changes |
| ClipStores.ClipStore.SetActiveClips | webrender/src/clip.rs:714-743 | The active list and rectangle are those of the whole chain, or of its part up to the clip that leaves nothing |
| ClipStores.ClipStore.SetActiveClipsFromClipChain | webrender/src/clip.rs:746-773 | The active list is the instance's range with the right conversions |
| ClipStores.ClipStore.BuildClipChainInstance | webrender/src/clip.rs:778-908 | The instance buffer grows by the kept clips, the active list is drained, early returns leave what the source leaves and happen exactly when they should; the instance holds its range, the local rectangle and the mapped one |
| ClipStores.ClipStore.BuildPrimitive | webrender/src/prim_store/mod.rs:2099-2123 | Collecting and building together, as the visibility pass calls them, admit exactly the primitive's visible points; all fields of the instance are told: rectangles, mapped rectangle, flags and mask |
| ClipStores.ClipStore.BuildSegments | webrender/src/prim_store/mod.rs:3890-3917 | Every segment's instance agrees with the primitive's instance on the segment, and its fields are told likewise |
| ClipStores.ClipStore.PrepareBrush | webrender/src/prim_store/mod.rs:3870-3932 | Every segment's instance agrees with the clips that the primitive started from; a single segment takes the primitive's own |
| ClipStacks.KeptExactly | webrender/src/clip.rs:609-644 | What a push adds is exactly the chain from the id to the root minus the shared clips, child first |
| ClipStacks.AddNodeKeepsChains | webrender/src/clip.rs:692-703 | A new node leaves all chains as they are and puts itself in front of its parent's |
| ClipStacks.ClipChainStack.PushClip | webrender/src/clip.rs:609-644 | A push appends the unshared chain to the current level and its length to the counts |
| ClipStacks.ClipChainStack.PopClip | webrender/src/clip.rs:646-653 | A pop takes off what the last push put on |
| ClipStacks.PoppedPushed | webrender/src/clip.rs:609-653 | A pop undoes a push |
| ClipStacks.ClipChainStack.PopSurface | webrender/src/clip.rs:665-669 | Under the source's assertion, the surface goes and the stack below is back |
| ClipStacks.ClipChainStack.Visit | webrender/src/prim_store/mod.rs:1957-2147 | Any well-nested visit restores the stack, never fails the pop assertion, and shows every primitive the unshared clips of its enclosing scopes up to its surface |
| ClipStacks.SeesOnlyUnshared | webrender/src/clip.rs:621-641 | No primitive inside a surface meets a clip that the surface, or one around it, shares |
| ClipTiles.TilesPartition | webrender/src/batch.rs:2910-2935 | The tiles partition the mask for every size: each pixel is in exactly one, and no tile leaves the mask or exceeds 128 pixels a side |
| ClipTiles.InsideIff | webrender/src/batch.rs:2915-2944 | A clip rectangle holds a mask pixel exactly if its edges, counted from the mask's corner, enclose the pixel's square |
| ClipTiles.OnDeviceHolds | webrender/src/batch.rs:2930-2936 | A tile's place on the device is its pixels moved by the mask's corner |
| ClipTiles.PushTiles | webrender/src/batch.rs:2910-2950 | The loops push every tile that the clip rectangle does not wholly hold, once, row by row |
| ClipTiles.TilesComplete | webrender/src/batch.rs:2919-2950 | Every pixel not wholly inside the clip rectangle is in exactly one pushed tile, and no pixel is in two |
| ClipMasks.TilesDrawWhole | webrender/src/batch.rs:2938-2948 | Drawing the tiles is drawing the whole clip, in either pass |
| ClipMasks.NeedsClear | webrender/src/render_task.rs:535-604 | The mask is cleared first exactly if the device clears fast or a rectangle of another coordinate system is among the clips |
| ClipMasks.DeviceHolds | webrender/src/batch.rs:2907-2909 | A clip's device rectangle is its world rectangle under the device pixel scale |
| ClipMasks.FlaggedChains | webrender/src/clip.rs:867-884 | A chain needs a mask exactly if one of its kept clips draws into it |
| ClipMasks.ClipBatcher.AddTiledClipMask | webrender/src/batch.rs:2866-2953 | Tiling happens exactly for large masks of clips aligned to the root whose place is known; otherwise nothing changes |
| ClipMasks.ClipBatcher.Add | webrender/src/batch.rs:2968-3156 | Clearing, the overwriting first pass, the multiplying second pass and tiles together make the mask the product of the coverages of all clips that draw |
| Matrices.ApplyMul | webrender/src/clip_scroll_tree.rs:289-297 | Multiplying matrices is composing what they do |
| Matrices.MulAssociative | webrender/src/clip_scroll_tree.rs:289-297 | Composition of transforms may be regrouped |
| Matrices.AccumulateIsMul | webrender/src/util.rs:210-221 | Accumulating scale and offset is multiplying their matrices |
| Matrices.InverseIsInverse | webrender/src/util.rs:176-187 | The inverse scale and offset is the inverse matrix |
| Matrices.FlattenCommutes | webrender/src/util.rs:416-421 | Flattening commutes with a later scale and offset |
| Matrices.FlattenThrough | webrender/src/clip_scroll_tree.rs:283-290 | Flattening a product is flattening its last factor exactly if the first leaves z alone |
| Matrices.AsScaleOffsetIff | webrender/src/util.rs:137-165 | Exactly which matrices count as a scale and offset |
| SpatialTrees.ClipScrollTree.AddSpatialNode | webrender/src/clip_scroll_tree.rs:574-588 | A new node is listed by its parent, and the tree stays one tree with older parents |
| SpatialTrees.ClipScrollTree.UpdateTree | webrender/src/clip_scroll_tree.rs:441-486 | The stack loop terminates and equals the recursive pre-order traversal: nodes, coordinate systems and order of visits |
| SpatialTrees.TurnOfLoop | webrender/src/clip_scroll_tree.rs:467-485 | One turn of the loop keeps what the rest of the traversal will give |
| SpatialTrees.DrainPushed | webrender/src/clip_scroll_tree.rs:479-483 | Pushing children in reverse amounts to visiting them in order |
| SpatialOrders.VisitsAllOnce | webrender/src/clip_scroll_tree.rs:441-486 | Every node is visited exactly once, after its parent |
| SpatialOrders.OrderExactly | webrender/src/clip_scroll_tree.rs:441-486 | A visit reaches exactly the nodes below, each once |
| SpatialOrders.SiblingsApart | webrender/src/clip_scroll_tree.rs:574-588 | No node is below two siblings |
| SpatialWalks.UpdateRight | webrender/src/clip_scroll_tree.rs:441-486 | What one node's update guarantees for its place, the traversal guarantees for every node, with the state that its parent prepared |
| SpatialUpdates.FrameStays | webrender/src/spatial_node.rs:363-373 | A reference frame that keeps its coordinate system is placed by its own matrix in front of its parent's |
| SpatialUpdates.FrameStarts | webrender/src/spatial_node.rs:374-404 | So is a frame that starts a coordinate system, flattened if its parent system asks for it |
| SpatialUpdates.ScrollerStays | webrender/src/spatial_node.rs:415-440 | So are scroll and sticky frames, by the snapped accumulated offset |
| SpatialUpdates.UninvertibleStays | webrender/src/spatial_node.rs:254-303 | Below a singular frame nothing has a place |
| SpatialUpdates.UpdateRespects | webrender/src/spatial_node.rs:264-442 | Every node's update keeps the link between scale, offset and coordinate system and the product of matrices |
| SpatialUpdates.StartsSystemIff | webrender/src/spatial_node.rs:355-373 | A frame starts a coordinate system exactly if it enters or leaves a 3D context or its own transform is more than a scale and offset; scrolling has no say in it |
| SpatialUpdates.WorldOfPoint | webrender/src/spatial_node.rs:318-440 | Where the reference puts a point: through the frame's own transform, moved by the snapped scroll offset, flattened where a system starts inside a flattening one; or moved by the snapped offset of a scroll or sticky frame |
| SpatialUpdates.ChildPlaceIs | webrender/src/spatial_node.rs:553-590 | What a node hands on to its children, field by field |
| SpatialTransforms.UpdateTransforms | webrender/src/clip_scroll_tree.rs:441-486 | After an update the whole tree is consistent: places, systems and their links |
| SpatialTransforms.WorldTransformIff | webrender/src/clip_scroll_tree.rs:302-328 | Exactly when the world transform is where the node is |
| SpatialTransforms.WorldTransformIsTrue | webrender/src/clip_scroll_tree.rs:302-337 | After an update the world transform is the product of the matrices of the node's ancestors |
| SpatialTransforms.AncestorsAround | webrender/src/spatial_node.rs:407-410 | A node's coordinate system lies inside those of its ancestors, so the climb to them never panics |
| SpatialClimbs.ClimbArrives | webrender/src/clip_scroll_tree.rs:282-291 | The climb arrives exactly if the target is around |
| SpatialClimbs.ClimbTelescopes | webrender/src/clip_scroll_tree.rs:282-291 | On chains where flattening on the climb meets flattening on the way in, which the systems alone tell, the climb followed by the target's world transform is the world transform |
| SpatialClimbs.ClimbTelescopesIff | webrender/src/clip_scroll_tree.rs:282-291 | On chains of flat frames: exactly if the target does not flatten or the last matrix leaves z alone |
| SpatialClimbs.GroupTelescopesIff | webrender/src/clip_scroll_tree.rs:282-291 | Out of a 3D group in a flattening system: exactly if the group's inner frames together leave z alone |
| SpatialTransforms.GetRelativeTransform | webrender/src/clip_scroll_tree.rs:255-299 | The loop computes the climb, in all three branches |
| SpatialTransforms.RelativeTelescopes | webrender/src/clip_scroll_tree.rs:255-299 | The relative transform followed by the ancestor's place is the node's place, in all three branches, through flattening systems too |
| SpatialTransforms.RelativeAgreesWithWorld | webrender/src/clip_scroll_tree.rs:255-337 | After an update, from any node to any ancestor on such a chain, relative transforms agree with true places |
| SpatialTransforms.RelativeAgreesIff | webrender/src/clip_scroll_tree.rs:255-337 | After an update, on chains of flat frames: exactly if the ancestor's system does not flatten or the last matrix leaves z alone |
| SpatialPartings.FlatteningPartsIff | webrender/src/spatial_node.rs:374-404 | Two nested flat frames with any matrices that start systems, updated: the relative transform from one to the other agrees with their places exactly if the inner matrix leaves z alone |
| SpatialPartings.FlatteningParts | webrender/src/clip_scroll_tree.rs:283-288 | A tree of three frames and its update, after which the two disagree |
| CommitGraph.BypassReaches | ci-scripts/wrupdater/converter.py:146-152 | Bypassing a boring parent changes no reachability of interesting changesets |
| CommitGraph.PrunedStep | ci-scripts/wrupdater/converter.py:134-154 | One bypass after any pruning is a pruning: same changesets, parents reached through boring ones only, same ancestry |
| CommitGraph.RunPrunes | ci-scripts/wrupdater/converter.py:134-167 | Any run of bypasses is a pruning |
| CommitGraph.DeepCleanReach | ci-scripts/wrupdater/converter.py:160-167 | Below a finished changeset no boring parent is left |
| CommitGraph.Converter.BypassParent | ci-scripts/wrupdater/converter.py:137-152 | The in-place step, and that it brings termination closer |
| CommitGraph.Converter.BypassParents | ci-scripts/wrupdater/converter.py:136-154 | One pass over the parents reports whether anything was pruned, and nothing boring is left if not |
| CommitGraph.Converter.PruneBoring | ci-scripts/wrupdater/converter.py:134-167 | The loop with recursion on merges terminates and leaves everything reachable clean |
| CommitGraph.Converter.Prune | ci-scripts/wrupdater/converter.py:134-167 | From the tip: every loaded parent touches the code or is a merge, new parents come through boring changesets, ancestry among interesting changesets is unchanged |
| PeekPoke.EncodeBytes | peek-poke/src/lib.rs:257-421 | The bytes themselves: tags of options and truth values, the lowest byte of a number first, parts in order |
| PeekPoke.EncodeFits | peek-poke/src/lib.rs:257-421 | No encoding exceeds the maximum size, and only zero-sized types have empty encodings |
| PeekPoke.MaxSizeReached | peek-poke/src/lib.rs:257-421 | Every type has a value that takes the maximum size |
| PeekPoke.ArrayMaxSize | peek-poke/src/lib.rs:362-371 | An array takes its length times its element |
| PeekPoke.Peek | peek-poke/src/lib.rs:257-421 | A read never passes the maximum size of its type |
| PeekPoke.PeekTags | peek-poke/src/lib.rs:295-345 | Any byte but zero reads as true, and an option's tag beyond one is refused |
| PeekPoke.PeekTyped | peek-poke/src/lib.rs:257-421 | Whatever is read is a value of its type, and every number can be read |
| PeekPoke.PeekEncode | peek-poke/src/lib.rs:257-421 | Reading gives back what was written and stops where writing stopped, for every nested type |
| PeekPoke.PeekOne | peek-poke/src/lib.rs:53-65 | One read from a slice takes one value if enough follows it |
| PeekPoke.StreamReadsIff | peek-poke/src/lib.rs:53-65 | Exactly when a stream in front of any bytes is read back: more than each type's maximum size is left before its read; else it ends unexpectedly |
| PeekPoke.StreamRoundTripIff | peek-poke/src/lib.rs:53-114 | A stream that its red zone covers is read back in order and leaves exactly the red zone, zero-sized values included, exactly if there is a red zone or nothing to read; the next read is refused |
| PeekPoke.OneTypeRoundTripIff | peek-poke/src/lib.rs:53-114 | For one type this works exactly if the type is not zero-sized or there is nothing to read |
| PeekPoke.WriteVerbatim | peek-poke/src/lib.rs:123-127 | A primitive is written byte by byte and nothing else changes |
| PeekPoke.PokeInto | peek-poke/src/lib.rs:257-421 | Writing through the advancing pointer stays in the reserved space and writes exactly the encoding |
| PeekPoke.PokeIntoVec | peek-poke/src/lib.rs:75-82 | The vector grows by exactly the encoding, within its capacity |
| PeekPoke.PokeExtendVec | peek-poke/src/lib.rs:85-103 | Several values after one reservation are the encoding of an array |
| PeekPoke.EnsureRedZone | peek-poke/src/lib.rs:107-114 | The red zone is appended as zeros |
| PeekPoke.Session | peek-poke/src/lib.rs:53-114 | Poking, closing and peeking through the real buffers gives the values back exactly when there is room before every read, and always with a red zone that covers the types |

## Left out

* Rounding of floats: coordinates, matrices and masks are reals, and the near-zero tolerance of `ScaleOffset::from_transform` is exact equality here.
* Overflow of `i32` coordinates and areas.
* Texture compatibility of single instances after a merge: the relation is not transitive, so none is claimed.
* `add_prim_to_batch` beyond its calls into the batch lists, GPU cache and resource cache lookups, serialisation, debug rendering.
* The renderer beyond the order of its passes, its depth function and its blending on and off.
* Scissored `Clear`, layered textures, null buffers and external buffers in the software GL.
* Blend modes that multiply a difference that may be negative.
* Edge stepping and clipping of polygons in `draw_quad_spans`; a program's colour is a function of the pixel's position.
* `get_clip_result_complex` and `project_inner_rect`: the answer for clips of other coordinate systems is a parameter, with a soundness assumption that clips of one system do not need.
* Image mask tiling, missing image keys, the fast-path flag and box-shadow sampling: kept shapes are sets of points inside their outer rectangle.
* The four lists inside a clip batch list: multiplication commutes with itself, so one list per pass is kept.
* `project_rect` in `add_tiled_clip_mask`: a clip's place on the device is a parameter, with the assumption that a clip leaves alone the pixels it wholly covers.
* Resolution of property bindings, perspective scrolling, sticky positioning, snapping and the determinant: parameters of a node's update.
* Snapping transforms, zooming flags, scroll offsets applied from outside, and the unscrolled viewport transform as a result.
* SpatialTransforms.RelativeAgreesWithWorld: one direction only on chains that mix 3D groups and flattening systems; the exact conditions are given for chains of flat frames and for one group, because elsewhere matrices can cancel what flattening changed.
* ClipChains.ConvertCorrect: does not cover a zero scale, because it has no inverse over the reals.
* Overlapping multipass instances of one z id: drawing them together is the design, so no order among their passes is claimed.
* `hg` and `git` calls of the converter and building git commits; acyclicity is given by a rank.
* Zero-copy and in-place variants of the codec, derive macros, and floats or pointers as values; arrays are tuples of equal element types.
* The bodies of shaders, SIMD wrappers, and the foreign function interface.
