# Display pipeline of the HarmonyOS remote-desktop client

A Dafny model of the native display pipeline of the client under `harmony/app/common/src/main/cpp`, and proofs
about it. `dafny verify dfyconfig.toml` checks the whole project.

Code that updates objects step by step is modelled as classes, methods and loops. Each method is proved against a
function of the old state; the runs (all interleavings of any number of such steps) are defined over the same
functions. Code that only computes is modelled as functions. Each region held under a mutex is one atomic step, and
every foreign call (window system, GPU, codec, protocol) is a parameter that may succeed or fail.

## What is modelled

- **Damage-tracked repaint** (`FrameUtils`, `GdiDirtyCapture`, `RemoteContentGeometry`, `NativeRgbaCopy`,
  `LatestFrameRenderer`, `NativeWindowPainter`, `RepaintRun`, `RepaintRestart`, `RepaintExact`). Frames carry a dirty
  box; the render queue coalesces them; the painter repaints only a box when its history allows. The main result is
  that this always equals a full repaint (`EveryRepaintIsAFullRepaint`). A run is one Start of the render thread with a
  fixed target size; a frame is assumed to differ from the last sequenced one only inside its dirty box. Start does
  not clear the painter, only `Destroy` does: the promise holds for a started thread if and only if its painter
  remembers no buffer of the painted size (`RepaintRestart.RestartIsSoundExactlyWhen`). When a repaint is partial is
  stated exactly (`RepaintExact.RepaintIsPartialExactlyWhen`).
- **AVC444 planes** (`Avc444Shaders`, `Avc444GpuRenderer`). Every shader is a function of a fragment; the encoder
  split is that of MS-RDPEGFX sections 3.3.8.3.2 and 3.3.8.3.3, with floor averages for the base chroma.
- **H.264 parameter sets** (`AnnexB`), by Annex B and Table 7-1 of ITU-T H.264. The second extraction is the identity
  except for a stream whose only parameter-set unit is a short start code and a bare header: those four bytes are
  below the size guard. Data without start codes is a list of units behind big-endian lengths, in one way only, and the
  walk gives the list of its parameter sets (`WithoutStartCodes`).
- **Permission requests** (`PermissionRequestBridge`): any number of callers, answers and timeouts. A joiner sees the
  grant exactly when it leaves while the granted request is still pending (`TrueExactlyIfGranted`).
- **AVC420 worker queue** (`Avc420WorkerQueue`, `Avc420WorkerRun`): bounds, drop accounting, backlog compaction that
  keeps the picture, and the order of tasks: nothing overtakes a command (`PoppedAfterItsCommands`).
- **Pending presents** (`Avc444PendingPresent`, `Avc420PendingPresent`, `Avc420PresentRules`, `Avc420ShownUpdates`).
  Every update has at most one present of its own, and what every command, background, EndFrame and change of target
  does is stated case by case. For AVC420 the retained composite is modelled pixel by pixel, as the update that painted
  each pixel last. The present of an update can show nothing of it, when backgrounds have replaced or covered it
  (`PresentShowsItsUpdate` gives the exact condition), and updates that are not pending are shown again on a new
  target or under a background shown alone (`ShownAgainExactlyWhen`); the accounting counts those presents apart.
- **Display settings and resizing** (`DisplayResizeTypes`, `SessionDisplaySettings`, `ResizeCoordinator`,
  `RequestCoalescer`, `DisplayDispatch`): the generation-tagged settings, the wait for a resized frame, the debounce,
  and the dispatch lock over all of them. Waits and debounced requests end after a bounded number of wakes of their
  workers, and every field is a function of the last step that speaks about it. Applied stays when a later
  presentation misses the target (`AppliedIsStaleExactlyWhen`). Session callbacks reset the settings without the
  dispatch lock, so a pinned size can still be sent after the mode went back to follow, exactly when such a reset
  falls between selection and send (`FixedSendIsPinnedExactlyWithoutAReset`).
- **Scroll steps** (`ScrollPolicy`), over the reals: conservation, and the steps sent as a function of the path.

## Model

| member | source | states |
|---|---|---|
| RepaintRun.EveryRepaintIsAFullRepaint | harmony/app/common/src/main/cpp/surface/native_window_rgba_painter.cpp:159-191 | over every run of enqueue, coalesce, drop, failed flush, size change and paint that starts with a painter remembering no buffer of the painted size, a flushed paint leaves its buffer equal to a full repaint of the frame, whether it repainted all or one box |
| RepaintRun.StepKeepsInv | harmony/app/common/src/main/cpp/surface/native_window_rgba_painter.cpp:260-338 | the invariant behind it: each remembered buffer shows exactly its recorded frame, or a later sequence is missing from the history for good |
| RepaintRun.QueueRunIsAccounted | harmony/app/common/src/main/cpp/surface/latest_frame_renderer.cpp:92-118 | frames leave the queue with disjoint, increasing sequence intervals, each box covers every box accepted in its interval, and queued = rendered + failed + replaced + discarded + waiting + in flight |
| RepaintRun.ForceSurvives | harmony/app/common/src/main/cpp/surface/latest_frame_renderer.cpp:100-109 | the waiting frame is forced exactly when one of the frames coalesced into it was |
| RepaintRun.CoalescedDescribes | harmony/app/common/src/main/cpp/surface/latest_frame_renderer.cpp:100-107 | a coalesced frame carries the newest pixels and a box covering every change since its first sequence |
| RepaintRun.PartialEqualsFull | harmony/app/common/src/main/cpp/surface/native_window_rgba_painter.cpp:260-313 | whenever the painter allows a partial repaint, painting only the box gives the full picture |
| RepaintRun.MissingForGood | harmony/app/common/src/main/cpp/surface/native_window_rgba_painter.cpp:315-337 | a sequence no history entry covers is never covered again, whatever is recorded and trimmed |
| RepaintRun.RunStaysLeftByPainting | harmony/app/common/src/main/cpp/surface/native_window_rgba_painter.cpp:315-338 | whatever a run leaves in the painter, no buffer goes by key 0 and history comes with a buffer |
| RepaintExact.CoalescedBoxIsTheMerge | harmony/app/common/src/main/cpp/surface/latest_frame_renderer.cpp:92-118 | in every run the frame waiting and the frame taken carry exactly the merge, in order, of the boxes of the frames accepted in their interval |
| RepaintExact.RepaintIsPartialExactlyWhen | harmony/app/common/src/main/cpp/surface/native_window_rgba_painter.cpp:260-338 | in every run a frame is repainted partially if and only if the history gaplessly covers every sequence since the buffer was painted and the merged box is usable |
| RepaintExact.CountersCountSteps | harmony/app/common/src/main/cpp/surface/latest_frame_renderer.cpp:70-122 | in every run each counter is the number of steps of its kind |
| RepaintRestart.RestartIsSoundExactlyWhen | harmony/app/common/src/main/cpp/surface/latest_frame_renderer.cpp:24-34 | from a newly started render thread, every flushed paint of every run is a full repaint if and only if its painter remembers no buffer of the painted size, for areas of two pixels or more |
| RepaintRestart.RestartAfterARun | harmony/app/common/src/main/cpp/surface/latest_frame_renderer.cpp:24-54 | the same for Stop and Start at any point of any run, with what its painter remembers there |
| RepaintRestart.BadRun | harmony/app/common/src/main/cpp/surface/native_window_rgba_painter.cpp:260-313 | with a remembered buffer of that size: a run from that start whose last step is a flushed paint that is no full repaint |
| RepaintRestart.RestartWithoutClearingIsUnsound | harmony/app/common/src/main/cpp/surface/latest_frame_renderer.cpp:24-34 | a run from an empty painter after which Stop and Start without Destroy break the promise |
| LatestFrameRenderer.Renderer.Start | harmony/app/common/src/main/cpp/surface/latest_frame_renderer.cpp:24-34 | resets pending frame, counters and sequence unless already running |
| LatestFrameRenderer.Renderer.Stop | harmony/app/common/src/main/cpp/surface/latest_frame_renderer.cpp:36-54 | stops and throws the waiting frame away |
| LatestFrameRenderer.Renderer.DropPending | harmony/app/common/src/main/cpp/surface/latest_frame_renderer.cpp:56-68 | drops the waiting frame and counts it as replaced |
| LatestFrameRenderer.Renderer.Enqueue | harmony/app/common/src/main/cpp/surface/latest_frame_renderer.cpp:70-122 | accepts exactly a valid frame while running; numbers it and coalesces it with the waiting one |
| LatestFrameRenderer.AcceptedExactlyWhen | harmony/app/common/src/main/cpp/surface/latest_frame_renderer.cpp:70-79 | a frame is accepted if and only if there is data, no side is empty, and a stride that is given holds a row counted in signed 32 bits |
| LatestFrameRenderer.AcceptedHoldsItsRowsExactlyWhen | harmony/app/common/src/main/cpp/surface/latest_frame_renderer.cpp:70-79 | a frame accepted with a stride of its own really holds its rows if and only if it is less than 2^29 wide |
| LatestFrameRenderer.Renderer.TakePending | harmony/app/common/src/main/cpp/surface/latest_frame_renderer.cpp:264-296 | hands the waiting frame to the worker and empties the queue |
| LatestFrameRenderer.Renderer.FinishFrame | harmony/app/common/src/main/cpp/surface/latest_frame_renderer.cpp:318-338 | counts the frame as rendered full, rendered partial, or failed |
| NativeWindowPainter.Painter.CanUsePartialDirty | harmony/app/common/src/main/cpp/surface/native_window_rgba_painter.cpp:260-313 | finds a usable box exactly when an unbroken chain of history links the buffer to the frame, and returns the accumulated one |
| NativeWindowPainter.Painter.RecordBufferFrame | harmony/app/common/src/main/cpp/surface/native_window_rgba_painter.cpp:315-338 | records the frame for its buffer, clears everything on a size change, keeps the newest 240 entries |
| NativeWindowPainter.Painter.PushHistory | harmony/app/common/src/main/cpp/surface/native_window_rgba_painter.cpp:326-334 | appends and keeps exactly the newest 240 entries |
| NativeWindowPainter.Painter.Render | harmony/app/common/src/main/cpp/surface/native_window_rgba_painter.cpp:159-191 | the bytes of the buffer show the full or the partial picture; the frame is recorded only after a successful flush, and a refusal touches nothing |
| NativeWindowPainter.Painter.Destroy | harmony/app/common/src/main/cpp/surface/native_window_rgba_painter.cpp:15-26 | forgets all buffers and history |
| NativeWindowPainter.PaintFull | harmony/app/common/src/main/cpp/surface/native_window_rgba_painter.cpp:169-172 | bars and sampled content together show the full picture in any buffer |
| NativeWindowPainter.PaintPartial | harmony/app/common/src/main/cpp/surface/native_window_rgba_painter.cpp:165-167 | writing one box turns what the buffer showed into the partial picture |
| NativeWindowPainter.PartialDirtyIsInArea | harmony/app/common/src/main/cpp/surface/native_window_rgba_painter.cpp:296-312 | the box of a partial repaint lies inside the painted area |
| NativeWindowPainter.FullPictureIsScaledFrame | harmony/app/common/src/main/cpp/surface/native_window_rgba_painter.cpp:169-172 | the full picture: each content pixel is the source pixel its position falls on, everything else the bars |
| NativeWindowPainter.WalkExactlyWhen | harmony/app/common/src/main/cpp/surface/native_window_rgba_painter.cpp:275-295 | the walk along the history succeeds if and only if the newer entries cover every sequence from the buffer to the frame without a gap |
| NativeWindowPainter.WalkMerges | harmony/app/common/src/main/cpp/surface/native_window_rgba_painter.cpp:275-295 | and what it accumulates is the merge of exactly their boxes |
| NativeWindowPainter.PartialExactlyWhen | harmony/app/common/src/main/cpp/surface/native_window_rgba_painter.cpp:260-313 | a partial repaint is allowed if and only if the frame is a candidate, the history is unbroken and the merged box is inside the area and at most 650 permille of it |
| NativeWindowPainter.TrimmedIsTheNewest | harmony/app/common/src/main/cpp/surface/native_window_rgba_painter.cpp:326-334 | trimming leaves the newest 240 entries, in order |
| NativeWindowPainter.RecordedIsRemembered | harmony/app/common/src/main/cpp/surface/native_window_rgba_painter.cpp:315-338 | afterwards the buffer is remembered with the last sequence of the frame, the others as before unless the size changed |
| NativeRgbaCopy.FillNativeRect | harmony/app/common/src/main/cpp/surface/native_rgba_copy.cpp:26-42 | fills exactly the bytes of the rectangle, in the byte order of the format |
| NativeRgbaCopy.CopyRgbaToNative | harmony/app/common/src/main/cpp/surface/native_rgba_copy.cpp:44-67 | copies exactly the source area; the row-copy path and the per-pixel path leave the same bytes |
| NativeRgbaCopy.CopyRgbaRectToNative | harmony/app/common/src/main/cpp/surface/native_rgba_copy.cpp:133-166 | copies exactly the rectangle and nothing else |
| NativeRgbaCopy.CopyScaledRgbaToNative | harmony/app/common/src/main/cpp/surface/native_rgba_copy.cpp:168-193 | each content pixel gets the source pixel that its position falls on, the one s with s * viewport <= position * source < (s + 1) * viewport in each dimension, on the fast path too; everything else stays |
| NativeRgbaCopy.FillNativeLetterbox | harmony/app/common/src/main/cpp/surface/native_rgba_copy.cpp:116-131 | everything in the target outside the viewport gets the fill, nothing else changes |
| NativeRgbaCopy.ViewportKeepsTheShape | harmony/app/common/src/main/cpp/surface/native_rgba_copy.cpp:103-114 | a frame is shown centred in the target, at its own size when at most 16 px are left, else filling one direction and keeping its shape, rounded down, in the other |
| NativeRgbaCopy.BarsAndContentPartition | harmony/app/common/src/main/cpp/surface/native_rgba_copy.cpp:116-193 | the rectangles of the four bars and of the content partition the target: each of its bytes is in exactly one of them, and no other byte in any |
| NativeRgbaCopy.SampleIsIdentityAtEqualSize | harmony/app/common/src/main/cpp/surface/native_rgba_copy.cpp:172-176 | the general sampling rule is the identity at equal sizes, so the fast path agrees |
| NativeRgbaCopy.SampleIsFallenOn | harmony/app/common/src/main/cpp/surface/native_rgba_copy.cpp:184-188 | the sampling rule gives the source position whose share of the content contains the position |
| NativeRgbaCopy.FallsOnOnlyOne | harmony/app/common/src/main/cpp/surface/native_rgba_copy.cpp:184-188 | there is exactly one such source position |
| NativeRgbaCopy.ByteOrder | harmony/app/common/src/main/cpp/surface/native_rgba_copy.cpp:10-24 | the four bytes of a pixel are R, G, B, A in RGBA formats and B, G, R, A in BGRA formats |
| NativeRgbaCopy.ScaledPixel | harmony/app/common/src/main/cpp/surface/native_rgba_copy.cpp:178-190 | the four bytes at a scaled content position are those of the source pixel it falls on, in the byte order of the target |
| RemoteContentGeometry.FitIsInsideAndCentred | harmony/app/common/src/main/cpp/surface/remote_content_geometry.cpp:28-64 | the viewport is non-empty exactly for non-empty sizes, inside the target, with margins differing by at most one |
| RemoteContentGeometry.FitTouchesOppositeSides | harmony/app/common/src/main/cpp/surface/remote_content_geometry.cpp:46-62 | outside the 1:1 case it touches two opposite sides and keeps the aspect ratio up to rounding down by less than a pixel |
| RemoteContentGeometry.ScaledSizeIsProportional | harmony/app/common/src/main/cpp/surface/remote_content_geometry.cpp:46-58 | no 64-bit quotient is cut to 32 bits; one side fills the target, the other is the floor of the proportional length |
| RemoteContentGeometry.KeepsItsSizeWithin16 | harmony/app/common/src/main/cpp/surface/remote_content_geometry.cpp:36-45 | content that fits the target and is at most 16 px smaller in both dimensions is left unscaled, and centred |
| RemoteContentGeometry.ResolvedContentStaysInTarget | harmony/app/common/src/main/cpp/surface/remote_content_geometry.cpp:66-94 | points reported inside the content are inside the target; a published rectangle is used exactly when valid |
| RemoteContentGeometry.PublishedExactlyWhen | harmony/app/common/src/main/cpp/surface/remote_content_geometry.cpp:10-24 | the published rectangle is used if and only if sizes and rectangle are not empty, it was published for this remote size, and all its pixels are in the target |
| FrameUtils.MergeAllIsHull | harmony/app/common/src/main/cpp/common/frame_utils.cpp:24-61 | any fold of in-frame boxes is the least box containing them all |
| FrameUtils.MergeIsLeastBox | harmony/app/common/src/main/cpp/common/frame_utils.cpp:24-61 | merging two boxes gives the least box containing both |
| FrameUtils.MergeCommutes | harmony/app/common/src/main/cpp/common/frame_utils.cpp:24-61 | merging commutes on the whole record, saturating count and area share included |
| FrameUtils.MergeAssociates | harmony/app/common/src/main/cpp/common/frame_utils.cpp:24-61 | merging in-frame boxes associates on the whole record |
| FrameUtils.MergeCoversBoth | harmony/app/common/src/main/cpp/common/frame_utils.cpp:24-61 | no pixel of the frame is lost, whatever the two boxes are |
| FrameUtils.PermilleIsAtMost1000 | harmony/app/common/src/main/cpp/freerdp/freerdp_gdi_bridge.cpp:284-285 | the share never exceeds 1000 in 64-bit arithmetic, for every area |
| FrameUtils.PermilleIsRoundedShare | harmony/app/common/src/main/cpp/freerdp/freerdp_gdi_bridge.cpp:284-285 | for frames below 2^54 pixels the share is the thousandths of the frame that the area covers, rounded; a larger area counts as the whole frame |
| FrameUtils.MergedShareIsOfTheBox | harmony/app/common/src/main/cpp/common/frame_utils.cpp:54-60 | the share recorded with a merged box is that of its own area, rounded |
| FrameUtils.CountsSaturate | harmony/app/common/src/main/cpp/common/frame_utils.cpp:24-61 | rectangle counts add up and stop at 2^32 - 1 |
| GdiDirtyCapture.CaptureGdiDirtyStats | harmony/app/common/src/main/cpp/freerdp/freerdp_gdi_bridge.cpp:218-287 | invalid without a window or frame; else the least box covering every pixel of the frame that lies in a non-null region, valid exactly when there is one; its share is that of the summed clipped areas, at most 1000 permille |
| GdiDirtyCapture.DirtyAccumulator.AddRegion | harmony/app/common/src/main/cpp/freerdp/freerdp_gdi_bridge.cpp:241-265 | one region adds its clipped box: bounds, summed area modulo 2^64 and count, or nothing when nothing is left of it |
| GdiDirtyCapture.AccumulatedDescribes | harmony/app/common/src/main/cpp/freerdp/freerdp_gdi_bridge.cpp:241-265 | over any regions the bounds are those of the merged box, and area and count are the sums over the clipped boxes |
| GdiDirtyCapture.AreaCountsPixels | harmony/app/common/src/main/cpp/freerdp/freerdp_gdi_bridge.cpp:259-261 | the area of a clipped box is the number of its pixels |
| GdiDirtyCapture.TotalsAddUp | harmony/app/common/src/main/cpp/freerdp/freerdp_gdi_bridge.cpp:259-262 | the summed area adds up the pixels of every clipped box, the count the boxes that are left |
| GdiDirtyCapture.ShareIsRounded | harmony/app/common/src/main/cpp/freerdp/freerdp_gdi_bridge.cpp:284-285 | the captured share is the thousandths of the frame that the summed area is, rounded, at most the whole frame |
| GdiDirtyCapture.ClipHasThePixels | harmony/app/common/src/main/cpp/freerdp/freerdp_gdi_bridge.cpp:241-256 | the clipped box of a region covers a pixel if and only if the region is not null, holds the pixel, and the pixel is in the frame |
| GdiDirtyCapture.HullOfClipsIsHullOfPixels | harmony/app/common/src/main/cpp/freerdp/freerdp_gdi_bridge.cpp:241-265 | so the least box over the clipped boxes is the least box over the pixels of the regions |
| Avc444Shaders.RoundTrip | harmony/app/common/src/main/cpp/surface/avc444_gpu_renderer.cpp:620-767 | splitting a padded 4:4:4 frame (both codecs), combining it and undoing the average gives back U and V exactly off the both-even positions and within 32 levels there |
| Avc444Shaders.CombinedPlanes | harmony/app/common/src/main/cpp/surface/avc444_gpu_renderer.cpp:607-726 | after luma and chroma over the whole surface Y is exact everywhere, U and V off the both-even positions, where the planes hold the block average |
| Avc444Shaders.LumaIsBaseChroma | harmony/app/common/src/main/cpp/surface/avc444_gpu_renderer.cpp:607-642 | after a luma update alone every sample in its rectangles is the base chroma of the 2x2 block it lies in, every other sample as before |
| Avc444Shaders.LumaAloneIsBlockAverage | harmony/app/common/src/main/cpp/surface/avc444_gpu_renderer.cpp:607-642 | for a transmitted main view: both planes hold at every position the average, rounded down, of the block it lies in |
| Avc444Shaders.V1ReadsFrom | harmony/app/common/src/main/cpp/surface/avc444_gpu_renderer.cpp:643-690 | in a rectangle of any position and size, which auxiliary sample every AVC444 position reads |
| Avc444Shaders.V2ReadsFrom | harmony/app/common/src/main/cpp/surface/avc444_gpu_renderer.cpp:691-726 | the same for AVC444v2 |
| Avc444Shaders.LastRectIsDrawnLast | harmony/app/common/src/main/cpp/surface/avc444_gpu_renderer.cpp:877-915 | of the rectangles containing a sample the one that counts is the one drawn last |
| Avc444Shaders.UndoBoundIsReached | harmony/app/common/src/main/cpp/surface/avc444_gpu_renderer.cpp:727-767 | 32 levels is the exact bound |
| Avc444Shaders.TilesExactlyWhenAligned | harmony/app/common/src/main/cpp/surface/avc444_gpu_renderer.cpp:643-726 | rectangle-relative addressing equals whole-surface addressing if and only if the rectangle is aligned to the grid of the shader |
| Avc444Shaders.UpdateIsOneFetch | harmony/app/common/src/main/cpp/surface/avc444_gpu_renderer.cpp:877-915 | overlapping aligned rectangles of one update agree, so the drawing order does not matter |
| Avc444Shaders.LastWriterWins | harmony/app/common/src/main/cpp/surface/avc444_gpu_renderer.cpp:324-456 | after any sequence of updates a sample holds what the last update writing it read, and its first value when none did |
| Avc444Shaders.OverlapLosesWritesWhenUnaligned | harmony/app/common/src/main/cpp/surface/avc444_gpu_renderer.cpp:877-915 | a concrete unaligned overlap where the later rectangle takes a write back |
| Avc444GpuRenderer.Renderer.DrawRectsToTexture | harmony/app/common/src/main/cpp/surface/avc444_gpu_renderer.cpp:877-915 | every sample is what the last rectangle containing it draws, read from the other texture |
| Avc444GpuRenderer.Renderer.PingPongChromaPlane | harmony/app/common/src/main/cpp/surface/avc444_gpu_renderer.cpp:931-953 | copy, draw and swap leave the plane as the update says, with no read-after-write hazard, and the textures stay distinct |
| Avc444GpuRenderer.Renderer.ApplyLuma | harmony/app/common/src/main/cpp/surface/avc444_gpu_renderer.cpp:324-376 | on success Y, and the base chroma of each block, inside the rectangles and nothing outside; on refusal nothing; both ready flags set exactly on success |
| Avc444GpuRenderer.Renderer.ApplyChroma | harmony/app/common/src/main/cpp/surface/avc444_gpu_renderer.cpp:378-456 | on success both chroma planes updated, on refusal nothing; Y untouched, the chroma flag set exactly on success |
| Avc444GpuRenderer.Renderer.InvalidateComposedState | harmony/app/common/src/main/cpp/surface/avc444_gpu_renderer.cpp:318-322 | nothing is ready to present afterwards |
| Avc444GpuRenderer.ReadyExactlyAfterLuma | harmony/app/common/src/main/cpp/surface/avc444_gpu_renderer.cpp:292-456 | over any calls the renderer is ready to present exactly once a main view was applied since the last invalidation; an auxiliary view alone makes nothing ready |
| Avc444GpuRenderer.Renderer.CopyPlaneTexture | harmony/app/common/src/main/cpp/surface/avc444_gpu_renderer.cpp:917-929 | copies every sample |
| AnnexB.FindAnnexBStartCode | harmony/app/common/src/main/cpp/surface/avc_gpu_common.cpp:29-48 | finds the first start code at or after the offset and its length, or none |
| AnnexB.ExtractH264ParameterSets | harmony/app/common/src/main/cpp/surface/avc_gpu_common.cpp:50-124 | returns exactly the in-order concatenation of the units of types 7 and 8, or what the length-prefixed walk collected |
| AnnexB.CollectFromStartCodes | harmony/app/common/src/main/cpp/surface/avc_gpu_common.cpp:69-95 | the start-code loop returns what is kept from its first start code on |
| AnnexB.CollectLengthPrefixed | harmony/app/common/src/main/cpp/surface/avc_gpu_common.cpp:96-117 | the length-prefixed loop stays in bounds and keeps what it collected when a length is bad |
| AnnexB.AnnexBPartition | harmony/app/common/src/main/cpp/surface/avc_gpu_common.cpp:69-95 | the units found, concatenated, rebuild the data from the first start code; no unit has a start code after its header |
| AnnexB.StartCodesAre | harmony/app/common/src/main/cpp/surface/avc_gpu_common.cpp:29-48 | a start code is 0 0 1 or 0 0 0 1 with a byte behind it, and nothing else is |
| AnnexB.LengthPrefixedRoundTrip | harmony/app/common/src/main/cpp/surface/avc_gpu_common.cpp:96-117 | from the bytes of any units behind their big-endian lengths, followed by anything no unit can be read from, the walk gives the bytes of the units of types 7 and 8 behind theirs, in order |
| AnnexB.EveryDataIsAStream | harmony/app/common/src/main/cpp/surface/avc_gpu_common.cpp:96-117 | every data has that form, so this is all the walk meets |
| AnnexB.StreamsAreUnique | harmony/app/common/src/main/cpp/surface/avc_gpu_common.cpp:96-117 | in one way only |
| AnnexB.WithoutStartCodes | harmony/app/common/src/main/cpp/surface/avc_gpu_common.cpp:50-124 | so this is what is extracted from data in which 0 0 1 does not occur |
| AnnexB.KeptIsConcatOfSlices | harmony/app/common/src/main/cpp/surface/avc_gpu_common.cpp:88-90 | the bytes kept are the concatenation of the slices of the units of types 7 and 8 |
| AnnexB.FourBytesKept | harmony/app/common/src/main/cpp/surface/avc_gpu_common.cpp:69-95 | four bytes are kept exactly when the stream has one parameter-set unit, a short start code and a header |
| AnnexB.ExtractionIsIdempotent | harmony/app/common/src/main/cpp/surface/avc_gpu_common.cpp:50-124 | extracting an Annex B result again gives it back, even where joining units moved a boundary, unless the stream has exactly one parameter-set unit and that is a short start code and a bare header |
| AnnexB.BareUnitIsLost | harmony/app/common/src/main/cpp/surface/avc_gpu_common.cpp:54-59 | a stream with such a unit: its four bytes are extracted, and lost when extracted again |
| AnnexB.JointMoves | harmony/app/common/src/main/cpp/surface/avc_gpu_common.cpp:34-46 | a stream in which a boundary moves: a trailing zero joins the next short start code, and the result is still the same |
| PermissionRequestBridge.Bridge.EnterRequest | harmony/app/common/src/main/cpp/napi/permission_request_bridge.cpp:33-57 | joins while something is pending, else becomes the owner of a fresh id with the answer cleared |
| PermissionRequestBridge.Bridge.CompleteFromUi | harmony/app/common/src/main/cpp/napi/permission_request_bridge.cpp:20-31 | accepted exactly for the pending id; the last accepted answer counts |
| PermissionRequestBridge.Bridge.LeaveAsOwner | harmony/app/common/src/main/cpp/napi/permission_request_bridge.cpp:61-77 | the result is the accepted answer to its own id; the bridge is cleared exactly when it still describes it |
| PermissionRequestBridge.Bridge.LeaveAsJoiner | harmony/app/common/src/main/cpp/napi/permission_request_bridge.cpp:44-50 | the result is the answer held when the wait ends |
| PermissionRequestBridge.Bridge.NextRequestId | harmony/app/common/src/main/cpp/napi/permission_request_bridge.cpp:80-87 | hands out the counter and skips 0 when it wraps |
| PermissionRequestBridge.OneOwnerAtATime | harmony/app/common/src/main/cpp/napi/permission_request_bridge.cpp:33-78 | for any callers and interleaving, at most one owner, pending exactly while there is one, and the pending id is its id and never 0 |
| PermissionRequestBridge.TrueOnlyIfGranted | harmony/app/common/src/main/cpp/napi/permission_request_bridge.cpp:33-78 | a call returns TRUE only for a request pending while it returns whose last accepted answer was a grant; for the owner, its own request, granted during the call |
| PermissionRequestBridge.TrueExactlyIfGranted | harmony/app/common/src/main/cpp/napi/permission_request_bridge.cpp:33-78 | a call that leaves, owner or joiner, returns TRUE if and only if a request is pending whose last accepted answer was a grant |
| PermissionRequestBridge.LastAnswerHolds | harmony/app/common/src/main/cpp/napi/permission_request_bridge.cpp:20-31 | the last accepted answer for the pending request is the answer the bridge holds |
| PermissionRequestBridge.EntryDoesExactly | harmony/app/common/src/main/cpp/napi/permission_request_bridge.cpp:33-57 | in every run an entering call is refused without a sink, joins while something is pending, and otherwise owns a fresh unanswered request; the k-th has the id k % (2^32 - 1) + 1 |
| PermissionRequestBridge.AnswerAndLeaveDoExactly | harmony/app/common/src/main/cpp/napi/permission_request_bridge.cpp:20-78 | an answer is taken exactly when it names the pending request; a leaving joiner changes nothing, a leaving owner leaves nothing pending |
| PermissionRequestBridge.LateAnswer | harmony/app/common/src/main/cpp/napi/permission_request_bridge.cpp:20-31 | the id of the i-th request is accepted if and only if a request a whole number of counter turns away is pending; for a finished one that takes 2^32-1 further requests |
| PermissionRequestBridge.JoinerCanMissTheGrant | harmony/app/common/src/main/cpp/napi/permission_request_bridge.cpp:43-76 | a run in which the owner returns TRUE and a joiner of the same request leaves after it and returns FALSE |
| Avc420WorkerQueue.WorkerQueue.Compact | harmony/app/common/src/main/cpp/surface/avc420_gpu_compositor.cpp:448-499 | leaves the commands with the surviving EndFrame in its place and reports exactly what it dropped |
| Avc420WorkerQueue.WorkerQueue.FindKeepIndex | harmony/app/common/src/main/cpp/surface/avc420_gpu_compositor.cpp:454-471 | the two backward searches find the last matched EndFrame, else the last |
| Avc420WorkerQueue.WorkerQueue.Clear | harmony/app/common/src/main/cpp/surface/avc420_gpu_compositor.cpp:426-446 | empties the queue and counts what was in it by kind |
| Avc420WorkerQueue.WorkerQueue.EnqueueCompacting | harmony/app/common/src/main/cpp/surface/avc420_gpu_compositor.cpp:777-798 | compacts from 24 tasks on, refuses at 720, else puts the task behind everything else and counts it |
| Avc420WorkerQueue.WorkerQueue.EnqueuePrewarm | harmony/app/common/src/main/cpp/surface/avc420_gpu_compositor.cpp:280-298 | refuses at 720, else appends and counts; never compacts |
| Avc420WorkerQueue.WorkerQueue.AccountDropped | harmony/app/common/src/main/cpp/surface/avc420_gpu_compositor.cpp:501-509 | adds the drops to the counters of commands and EndFrames |
| Avc420WorkerQueue.WorkerQueue.Pop | harmony/app/common/src/main/cpp/surface/avc420_gpu_compositor.cpp:929-940 | takes the front task |
| Avc420WorkerQueue.WorkerQueue.CountProcessed | harmony/app/common/src/main/cpp/surface/avc420_gpu_compositor.cpp:968-1007 | counts a processed task under its kind |
| Avc420WorkerQueue.CompactionKeepsTheCommands | harmony/app/common/src/main/cpp/surface/avc420_gpu_compositor.cpp:448-499 | the command sequence is untouched, at most one EndFrame and no Prewarm survive, everything lost is reported, and a queue that gets no shorter loses nothing |
| Avc420WorkerQueue.SurvivorKeepsItsPlace | harmony/app/common/src/main/cpp/surface/avc420_gpu_compositor.cpp:454-492 | the survivor is the last matched EndFrame, else the last, behind exactly the commands it stood behind |
| Avc420WorkerQueue.EnqueueAccounts | harmony/app/common/src/main/cpp/surface/avc420_gpu_compositor.cpp:777-801 | an enqueue keeps the queue within its bounds and loses nothing unreported, also when it compacts and then refuses |
| Avc420WorkerQueue.CompactsFrom24 | harmony/app/common/src/main/cpp/surface/avc420_gpu_compositor.cpp:777-798 | a command or an EndFrame that finds 24 tasks has the queue compacted first, a Prewarm never |
| Avc420WorkerQueue.TakenExactlyWhen | harmony/app/common/src/main/cpp/surface/avc420_gpu_compositor.cpp:777-798 | a task is refused exactly when 720 tasks are left after that |
| Avc420WorkerQueue.TaskGoesLast | harmony/app/common/src/main/cpp/surface/avc420_gpu_compositor.cpp:777-798 | an accepted task is the last of the new queue and what stands before it is the old queue or its compaction; a refused one leaves only the count of refusals |
| Avc420WorkerQueue.CompactedStandsAt | harmony/app/common/src/main/cpp/surface/avc420_gpu_compositor.cpp:448-499 | every task of a compacted queue was in the queue, behind exactly the same commands |
| Avc420WorkerQueue.CompactedLength | harmony/app/common/src/main/cpp/surface/avc420_gpu_compositor.cpp:448-499 | a compacted queue has its commands, and one EndFrame if it had any |
| Avc420WorkerRun.EveryTaskIsAccountedFor | harmony/app/common/src/main/cpp/surface/avc420_gpu_compositor.cpp:777-801 | in every reachable state, per kind, queued = processed + dropped + dropped and not yet accounted for + still queued + in flight; at most 720 tasks and 24 EndFrames |
| Avc420WorkerRun.EveryKindIsAccountedFor | harmony/app/common/src/main/cpp/surface/avc420_gpu_compositor.cpp:448-509 | for every kind, Prewarms too, queued = processed + reported dropped + about to be reported + still queued + in flight |
| Avc420WorkerRun.RefusalsAndDepth | harmony/app/common/src/main/cpp/surface/avc420_gpu_compositor.cpp:777-798 | the over-limit counter counts the refusals, the recorded depth is the deepest the queue has been |
| Avc420WorkerRun.TasksKeepTheirOrder | harmony/app/common/src/main/cpp/surface/avc420_gpu_compositor.cpp:448-509 | in every run, of the commands exactly those queued when a task was enqueued and not yet popped stand before it, in their order |
| Avc420WorkerRun.PoppedAfterItsCommands | harmony/app/common/src/main/cpp/surface/avc420_gpu_compositor.cpp:929-940 | when the worker pops a task, an EndFrame too, it has popped since the task was enqueued exactly the commands that were queued then |
| Avc420WorkerRun.CompactionKeepsTheComposite | harmony/app/common/src/main/cpp/surface/avc420_gpu_compositor.cpp:448-499 | draining a queue and draining its compaction show the same colour everywhere, for every decoder |
| Avc420WorkerRun.CompositeShowsAcceptedCommands | harmony/app/common/src/main/cpp/surface/avc420_gpu_compositor.cpp:924-1015 | in a run without clears the composite shows the accepted commands in order, however often the backlog was compacted |
| Avc420WorkerRun.LastDrawerShows | harmony/app/common/src/main/cpp/surface/avc420_native_buffer_renderer.cpp:198-268 | what drawing commands shows at a place is what the decoder showed after the last command that draws there, as long as the size stayed |
| Avc420WorkerRun.NothingDrawnIsBlack | harmony/app/common/src/main/cpp/surface/avc420_native_buffer_renderer.cpp:198-268 | and black where none has drawn since the size changed |
| Avc420WorkerRun.DrawsWhereARectFits | harmony/app/common/src/main/cpp/surface/avc420_native_buffer_renderer.cpp:234-243 | a command draws exactly where one of its rectangles lies that does not stick out of the surface |
| Avc420WorkerRun.OneCommand | harmony/app/common/src/main/cpp/surface/avc420_native_buffer_renderer.cpp:198-268 | a command composites onto the retained picture the same whatever surface size was set before |
| Avc444PendingPresent.Compositor.ProcessCommand | harmony/app/common/src/main/cpp/surface/avc444_gpu_compositor_state.cpp:93-441 | queues, leaves alone, or drops the pending update, stage by stage |
| Avc444PendingPresent.Compositor.PresentEndFrame | harmony/app/common/src/main/cpp/surface/avc444_gpu_compositor_state.cpp:443-615 | shows the pending update exactly at its own matched EndFrame with target, window and draw all good; otherwise drops it |
| Avc444PendingPresent.Compositor.Destroy | harmony/app/common/src/main/cpp/surface/avc444_gpu_compositor_state.cpp:30-63 | resets pending state and counters |
| Avc444PendingPresent.UpdatesAreShownAtMostOnce | harmony/app/common/src/main/cpp/surface/avc444_gpu_compositor_state.cpp:378-615 | over any run presented + overwrites + pending never exceeds queued, with the rest dropped; every showing is at a matched EndFrame with its own frame id and no update is shown twice |
| Avc444PendingPresent.WhatCommandsDoToThePendingUpdate | harmony/app/common/src/main/cpp/surface/avc444_gpu_compositor_state.cpp:127-180 | a command overwrites the pending update exactly when it queues one, and drops it only while active |
| Avc444PendingPresent.CommandDoesExactly | harmony/app/common/src/main/cpp/surface/avc444_gpu_compositor_state.cpp:93-441 | a command queues its update exactly when it passes every stage; while active an addressed one that does not, other than a decoded one with nothing dirty, takes the pending update along; every counter is stated |
| Avc444PendingPresent.PendingExactlyWhileWaiting | harmony/app/common/src/main/cpp/surface/avc444_gpu_compositor_state.cpp:93-615 | over any run an update is pending exactly while one waits, by the steps alone |
| Avc444PendingPresent.EndFrameShowsExactly | harmony/app/common/src/main/cpp/surface/avc444_gpu_compositor_state.cpp:443-615 | at the end of any run an EndFrame appends the latest queued update to the showings if and only if it waits, the EndFrame is its own, the size is not zero and target, window and draw are good; the counters say which it was |
| Avc444PendingPresent.WhatIsOverIsForgotten | harmony/app/common/src/main/cpp/surface/avc444_gpu_compositor_state.cpp:93-615 | over any run, once nothing is pending neither frame id nor size of the last update is left |
| Avc420PendingPresent.Compositor.ProcessCommand | harmony/app/common/src/main/cpp/surface/avc420_gpu_compositor_state.cpp:413-658 | queues, leaves alone or drops the pending update, and says whether the output is kept |
| Avc420PendingPresent.Compositor.ApplyActiveUpdatePolicy | harmony/app/common/src/main/cpp/surface/avc420_gpu_compositor_state.cpp:467-497 | drops the pending update; from the sixth ignored update on, one that asks for a decoder reset gives the output back |
| Avc420PendingPresent.Compositor.Destroy | harmony/app/common/src/main/cpp/surface/avc420_gpu_compositor_state.cpp:103-153 | resets pending state and counters |
| Avc420PendingPresent.Compositor.Fail | harmony/app/common/src/main/cpp/surface/avc420_gpu_compositor_state.cpp:499-521 | the third active failure gives the output back |
| Avc420PendingPresent.Compositor.ProcessGdiFrame | harmony/app/common/src/main/cpp/surface/avc420_gpu_compositor_state.cpp:288-334 | takes a GDI background into the retained composite |
| Avc420PendingPresent.Compositor.PresentGdiBackground | harmony/app/common/src/main/cpp/surface/avc420_gpu_compositor_state.cpp:336-411 | shows a GDI background alone only while active and nothing else is pending |
| Avc420PendingPresent.Compositor.PresentQueuedUpdate | harmony/app/common/src/main/cpp/surface/avc420_gpu_compositor_state.cpp:660-762 | shows, drops, or keeps the pending update |
| Avc420PendingPresent.Compositor.PresentEndFrame | harmony/app/common/src/main/cpp/surface/avc420_gpu_compositor_state.cpp:852-885 | the pending update first, else the GDI background at a matched frame |
| Avc420PendingPresent.Compositor.OnSurfaceTargetChanged | harmony/app/common/src/main/cpp/surface/avc420_gpu_compositor_state.cpp:187-260 | shows the retained composite on a new target and clears both pending flags |
| Avc420PendingPresent.GdiPresentsNeverExceedUpdates | harmony/app/common/src/main/cpp/surface/avc420_gpu_compositor_state.cpp:288-411 | over any run GDI presents + pending never exceed GDI updates, and a GDI-only present never happens while an update is pending |
| Avc420PendingPresent.EachUpdateHasOnePresent | harmony/app/common/src/main/cpp/surface/avc420_gpu_compositor_state.cpp:660-762 | over any run the presents made for updates are for later and later updates: each update has at most one of its own |
| Avc420PendingPresent.PresentsAreMatched | harmony/app/common/src/main/cpp/surface/avc420_gpu_compositor_state.cpp:660-885 | that present is at a matched EndFrame with the frame id of the update, or on a new target while it was pending; no EndFrame presents without one |
| Avc420PendingPresent.UpdatesAreConserved | harmony/app/common/src/main/cpp/surface/avc420_gpu_compositor_state.cpp:622-762 | over any run every queued update is presented, overwritten, given up or pending; presents that carried none are counted apart |
| Avc420PendingPresent.PresentsWithinUpdatesExactlyWhen | harmony/app/common/src/main/cpp/surface/avc420_gpu_compositor_state.cpp:622-762 | presented + overwrites + pending stays within queued if and only if the presents for no update are no more than the updates given up |
| Avc420PendingPresent.PresentsNeverExceedUpdates | harmony/app/common/src/main/cpp/surface/avc420_gpu_compositor_state.cpp:622-762 | so it does in runs in which every present was for a pending update |
| Avc420PresentRules.CompositedIsQueued | harmony/app/common/src/main/cpp/surface/avc420_gpu_compositor_state.cpp:622-658 | a composited update is queued in place of any other; an overwrite is counted only over one of its own size |
| Avc420PresentRules.ActiveTroubleDoesExactly | harmony/app/common/src/main/cpp/surface/avc420_gpu_compositor_state.cpp:413-521 | what an active command that is not composited does, case by case: waiting output keeps the GPU, the third failure and the sixth ignored reset give it up |
| Avc420PresentRules.InactiveTroubleDoesExactly | harmony/app/common/src/main/cpp/surface/avc420_gpu_compositor_state.cpp:413-521 | the same before the GPU is in charge |
| Avc420PresentRules.UnacceptableIsIgnored | harmony/app/common/src/main/cpp/surface/avc420_gpu_compositor_state.cpp:413-466 | a command that is not acceptable changes nothing and is not handled |
| Avc420PresentRules.BackgroundPixels | harmony/app/common/src/main/cpp/surface/avc420_gpu_compositor_state.cpp:288-334 | the pixels of a background are those of its dirty box in the frame, or of the whole frame |
| Avc420PresentRules.BackgroundDoesExactly | harmony/app/common/src/main/cpp/surface/avc420_gpu_compositor_state.cpp:288-334 | a background is taken exactly while active, valid and drawn |
| Avc420PresentRules.ReadyExactlyWhen | harmony/app/common/src/main/cpp/surface/avc420_native_buffer_renderer.cpp:198-351 | after every step the composite can be shown exactly when something was drawn into it since its surface was last started afresh |
| Avc420PresentRules.EndFrameDoesExactly | harmony/app/common/src/main/cpp/surface/avc420_gpu_compositor_state.cpp:660-885 | at the end of any run, what an EndFrame does with the pending update |
| Avc420PresentRules.BackgroundAloneDoesExactly | harmony/app/common/src/main/cpp/surface/avc420_gpu_compositor_state.cpp:336-411 | a background is shown alone exactly if it waits, the GPU is in charge, no update is pending, the size is known and everything works |
| Avc420PresentRules.NewTargetDoesExactly | harmony/app/common/src/main/cpp/surface/avc420_gpu_compositor_state.cpp:187-260 | a new target shows the composite exactly while active with a known size and everything working |
| Avc420PresentRules.WhatIsOverIsForgotten | harmony/app/common/src/main/cpp/surface/avc420_gpu_compositor_state.cpp:413-762 | over any run, once nothing is pending neither frame id nor size of the last update is left |
| Avc420ShownUpdates.PixelBelongsTo | harmony/app/common/src/main/cpp/surface/avc420_native_buffer_renderer.cpp:198-351 | over any run a pixel of the composite is of update u if and only if u was the last to paint it and the surface has not been started afresh or destroyed since |
| Avc420ShownUpdates.PresentShowsItsUpdate | harmony/app/common/src/main/cpp/surface/avc420_native_buffer_renderer.cpp:268-351 | for the present of any update of any run: the composite presented holds a pixel of the update if and only if no background of another size came between its command and the present, and some pixel of the rectangles of the command lies outside every box painted in between |
| Avc420ShownUpdates.ShownAgainExactlyWhen | harmony/app/common/src/main/cpp/surface/avc420_gpu_compositor_state.cpp:187-411 | exactly when a step presents pixels of update u with nothing pending: a successful active change of target or a background shown alone, while a pixel of u survives the paints of the run; u was presented, overwritten or given up before |
| Avc420ShownUpdates.UpdateCanBeShownTwice | harmony/app/common/src/main/cpp/surface/avc420_gpu_compositor_state.cpp:247-254 | a run in which update 0 is shown at its EndFrame and again on a new target, so two presents count against one queued |
| Avc420ShownUpdates.UpdateCanBeWipedOff | harmony/app/common/src/main/cpp/surface/avc420_native_buffer_renderer.cpp:534-582 | a run in which a present is counted for an update of which a background of another size has left nothing |
| Avc420ShownUpdates.UpdateCanBePaintedOver | harmony/app/common/src/main/cpp/surface/avc420_native_buffer_renderer.cpp:292-330 | the same with a background of the same size that covers the whole surface |
| SessionDisplaySettings.Settings.Reset | harmony/app/common/src/main/cpp/session/session_display_settings.cpp:8-19 | a new generation, everything cleared but the layout |
| SessionDisplaySettings.Settings.InvalidatePresentation | harmony/app/common/src/main/cpp/session/session_display_settings.cpp:20-28 | a new generation with no known size and nothing pending |
| SessionDisplaySettings.Settings.SetConnected | harmony/app/common/src/main/cpp/session/session_display_settings.cpp:29-33 | changes only the connection flag |
| SessionDisplaySettings.Settings.SetMultimon | harmony/app/common/src/main/cpp/session/session_display_settings.cpp:34-45 | multi-monitor mode drops the pinned size and what is pending |
| SessionDisplaySettings.Settings.Select | harmony/app/common/src/main/cpp/session/session_display_settings.cpp:46-57 | accepted exactly when connected, single-monitor and, if fixed, within 200..4096 |
| SessionDisplaySettings.Settings.Begin | harmony/app/common/src/main/cpp/session/session_display_settings.cpp:63-74 | a new generation with a target and a deadline |
| SessionDisplaySettings.Settings.Result | harmony/app/common/src/main/cpp/session/session_display_settings.cpp:75-103 | ignored for an old generation; a failure ends the request, anything else moves the target and may confirm |
| SessionDisplaySettings.Settings.Presented | harmony/app/common/src/main/cpp/session/session_display_settings.cpp:109-117 | ignored for an old generation or an empty size; else the size is known and may confirm |
| SessionDisplaySettings.Settings.BlocksPointer | harmony/app/common/src/main/cpp/session/session_display_settings.cpp:118-131 | blocks exactly while a request is pending and not expired |
| SessionDisplaySettings.StatusIsConsistent | harmony/app/common/src/main/cpp/session/session_display_settings.cpp:8-131 | pending implies Applying, Deferred or WaitingFrame; multi-monitor implies not fixed; a pinned size only in fixed mode |
| SessionDisplaySettings.OldGenerationsAreIgnored | harmony/app/common/src/main/cpp/session/session_display_settings.cpp:75-78 | the generation never decreases, and results and presentations with an old one change nothing |
| SessionDisplaySettings.AppliedOnlyWhenShown | harmony/app/common/src/main/cpp/session/session_display_settings.cpp:75-117 | Applied appears only after a non-failed result of the generation, with the last presented size within 15 px of the target, presented in the generation or vouched for by Unchanged |
| SessionDisplaySettings.AppliedExactlyWhen | harmony/app/common/src/main/cpp/session/session_display_settings.cpp:75-117 | the status becomes Applied if and only if a good result or presentation of the generation comes after which both are there and the size is at most 15 px off in both dimensions |
| SessionDisplaySettings.AcceptedExactlyWhen | harmony/app/common/src/main/cpp/session/session_display_settings.cpp:75-95 | over any run a result counts as accepted if and only if the generation had one that was no failure |
| SessionDisplaySettings.ShownExactlyWhen | harmony/app/common/src/main/cpp/session/session_display_settings.cpp:92-117 | over any run the screen counts as shown if and only if the generation had a presentation, or an Unchanged result with a known size |
| SessionDisplaySettings.TargetIsTheLastNamed | harmony/app/common/src/main/cpp/session/session_display_settings.cpp:63-91 | over any run the target is what the last request or good result named: the sent size, else the normalised one |
| SessionDisplaySettings.ActualIsTheLastShown | harmony/app/common/src/main/cpp/session/session_display_settings.cpp:8-117 | over any run the known size is the one presented last, unless reset or invalidated since |
| SessionDisplaySettings.ModeIsTheLastChoice | harmony/app/common/src/main/cpp/session/session_display_settings.cpp:34-57 | over any run mode and pinned size are those of the last allowed choice, unless a reset or a multi-monitor layout came after |
| SessionDisplaySettings.FlagsAreTheLastSaid | harmony/app/common/src/main/cpp/session/session_display_settings.cpp:8-45 | over any run the connection and layout flags are what was last said |
| SessionDisplaySettings.GenerationCounts | harmony/app/common/src/main/cpp/session/session_display_settings.cpp:8-74 | over any run the generation is the number of resets, invalidations, multi-monitor layouts and requests |
| SessionDisplaySettings.StatusHasItsCause | harmony/app/common/src/main/cpp/session/session_display_settings.cpp:8-131 | the status after every step, cause by cause |
| SessionDisplaySettings.AppliedIsStaleExactlyWhen | harmony/app/common/src/main/cpp/session/session_display_settings.cpp:75-117 | from the step at which Applied appears and as long as it stays: the size on the screen is off the target if and only if the last presentation or good result since was a presentation of the generation 16 px or more off |
| SessionDisplaySettings.PendingExactlyWhileOpen | harmony/app/common/src/main/cpp/session/session_display_settings.cpp:63-131 | over any run a request is pending exactly until a new generation, a failure of its own, Applied, or a look eight seconds after it |
| SessionDisplaySettings.BlocksExactlyWhen | harmony/app/common/src/main/cpp/session/session_display_settings.cpp:118-131 | pointer input is blocked at a moment if and only if a request is open that was begun less than eight seconds before |
| SessionDisplaySettings.AppliedCanGoStale | harmony/app/common/src/main/cpp/session/session_display_settings.cpp:96-117 | a run in which Applied survives a later presentation of a size that does not match |
| ResizeCoordinator.Coordinator.ApplyResult | harmony/app/common/src/main/cpp/session/rdp_display_resize_coordinator.cpp:46-92 | Unchanged does nothing, Sent with a size waits for it, everything else falls back |
| ResizeCoordinator.Coordinator.Reset | harmony/app/common/src/main/cpp/session/rdp_display_resize_coordinator.cpp:32-44 | a new generation, idle, no target |
| ResizeCoordinator.Coordinator.BeginSent | harmony/app/common/src/main/cpp/session/rdp_display_resize_coordinator.cpp:64-78 | a new generation waiting for the target until the deadline |
| ResizeCoordinator.Coordinator.UseFallback | harmony/app/common/src/main/cpp/session/rdp_display_resize_coordinator.cpp:80-92 | a new generation in fallback, no target |
| ResizeCoordinator.Coordinator.Stop | harmony/app/common/src/main/cpp/session/rdp_display_resize_coordinator.cpp:12-24 | a new generation, idle, and the worker is told to end |
| ResizeCoordinator.Coordinator.ShouldQueueFrame | harmony/app/common/src/main/cpp/session/rdp_display_resize_coordinator.cpp:94-119 | admits exactly when not waiting or matching; a match ends the wait, a refusal is counted |
| ResizeCoordinator.Coordinator.WorkerStep | harmony/app/common/src/main/cpp/session/rdp_display_resize_coordinator.cpp:144-175 | arms, is interrupted, or times the wait out and calls back |
| ResizeCoordinator.OneWayOut | harmony/app/common/src/main/cpp/session/rdp_display_resize_coordinator.cpp:32-175 | a target leaves the wait at most once and by exactly one of match, supersession, timeout |
| ResizeCoordinator.CallbackOncePerTimeout | harmony/app/common/src/main/cpp/session/rdp_display_resize_coordinator.cpp:165-173 | the callback fires at most once per generation, only after its timeout, never for a matched or superseded one |
| ResizeCoordinator.SkippedCountsRefusals | harmony/app/common/src/main/cpp/session/rdp_display_resize_coordinator.cpp:113-118 | while waiting the skipped count is the number of refusals since the target was set |
| ResizeCoordinator.RefusedOnlyWhenMismatched | harmony/app/common/src/main/cpp/session/rdp_display_resize_coordinator.cpp:94-142 | a frame is refused only while waiting and mismatched |
| ResizeCoordinator.OpenedByTheLastRequest | harmony/app/common/src/main/cpp/session/rdp_display_resize_coordinator.cpp:46-175 | over any run, after a Sent result with a size: the size waited for is the sent one, else the normalised one; the wait is on exactly until a frame at most 15 px off, or the armed worker two seconds after; the first of them decides between idle and fallback; every frame in between was counted as skipped |
| ResizeCoordinator.ClosedByTheLastRequest | harmony/app/common/src/main/cpp/session/rdp_display_resize_coordinator.cpp:32-92 | after any other request nothing is waited for, whatever follows: fallback after a result, idle after a reset or stop |
| ResizeCoordinator.WaitEndsByTheThirdWake | harmony/app/common/src/main/cpp/session/rdp_display_resize_coordinator.cpp:144-175 | the wait ends with the third wake of the worker after the request at the latest, if that is two seconds after it or later |
| ResizeCoordinator.WorkerEndsAfterAStop | harmony/app/common/src/main/cpp/session/rdp_display_resize_coordinator.cpp:12-24 | after a Stop the worker ends, with its second wake at the latest |
| RequestCoalescer.Coalescer.Schedule | harmony/app/common/src/main/cpp/session/rdp_display_request_coalescer.cpp:32-41 | replaces the pending request |
| RequestCoalescer.Coalescer.Flush | harmony/app/common/src/main/cpp/session/rdp_display_request_coalescer.cpp:43-59 | forwards at once and leaves nothing pending |
| RequestCoalescer.Coalescer.Cancel | harmony/app/common/src/main/cpp/session/rdp_display_request_coalescer.cpp:61-69 | leaves nothing pending |
| RequestCoalescer.Coalescer.Stop | harmony/app/common/src/main/cpp/session/rdp_display_request_coalescer.cpp:12-24 | nothing pending, and the worker is told to end |
| RequestCoalescer.Coalescer.WorkerStep | harmony/app/common/src/main/cpp/session/rdp_display_request_coalescer.cpp:71-97 | arms, is interrupted, or dequeues |
| RequestCoalescer.DequeuesOnlyTheLatest | harmony/app/common/src/main/cpp/session/rdp_display_request_coalescer.cpp:71-97 | what is dequeued is the latest scheduled, with nothing after it and the delay gone by |
| RequestCoalescer.DequeuedAtMostOnce | harmony/app/common/src/main/cpp/session/rdp_display_request_coalescer.cpp:71-97 | two dequeues come from two different Schedules |
| RequestCoalescer.NothingEarlierAfterCancel | harmony/app/common/src/main/cpp/session/rdp_display_request_coalescer.cpp:43-69 | after a Cancel or Flush nothing earlier is dequeued |
| RequestCoalescer.PendingExactlyWhile | harmony/app/common/src/main/cpp/session/rdp_display_request_coalescer.cpp:32-97 | over any run a scheduled request is pending exactly until the next call or until it is dequeued |
| RequestCoalescer.DequeuesExactlyWhen | harmony/app/common/src/main/cpp/session/rdp_display_request_coalescer.cpp:71-97 | a pending request is dequeued if and only if the worker, not stopped, looked at rest after it was scheduled and looks again 200 ms later |
| RequestCoalescer.DequeuedByTheThirdWake | harmony/app/common/src/main/cpp/session/rdp_display_request_coalescer.cpp:71-97 | a request with no call after it is forwarded with the third wake of the worker at the latest, if that is 200 ms after the second |
| RequestCoalescer.WorkerEndsAfterAStop | harmony/app/common/src/main/cpp/session/rdp_display_request_coalescer.cpp:12-24 | after a Stop the worker ends, with its second wake at the latest |
| DisplayDispatch.SendsRespectTheMode | harmony/app/common/src/main/cpp/napi/native_bridge_context.cpp:395-468 | in every interleaving a surface-sized resize is sent only in follow mode with a single monitor, even from a stale request, and a send in fixed mode carries the pinned size |
| DisplayDispatch.StepKeepsInv | harmony/app/common/src/main/cpp/napi/native_bridge_context.cpp:211-240 | exactly the holder of the dispatch lock is inside, and what it checked still holds |
| DisplayDispatch.SendIsGood | harmony/app/common/src/main/cpp/napi/native_bridge_context.cpp:115-126 | the settings at the moment of a send match the size sent |
| DisplayDispatch.FixedSendIsPinnedExactlyWithoutAReset | harmony/app/common/src/main/cpp/napi/native_bridge_context.cpp:254-274 | every toolbar send of a fixed size is made in fixed mode if and only if no session callback reset the settings between the step that selected the size and the send |
| DisplayDispatch.FixedSendCanFollowAReset | harmony/app/common/src/main/cpp/napi/native_bridge_context.cpp:254-274 | a session callback between selection and send leaves a fixed size sent in follow mode |
| DisplayDispatch.ToolbarReachesItsSend | harmony/app/common/src/main/cpp/napi/native_bridge_context.cpp:395-409 | a toolbar call reaches such a state |
| DisplayDispatch.SurfaceSendsCarryTheSurface | harmony/app/common/src/main/cpp/napi/native_bridge_context.cpp:395-430 | in every interleaving a send from the surface carries the non-empty size the surface had when the same call read it, with the lock held since |
| DisplayDispatch.OnlyBegunSends | harmony/app/common/src/main/cpp/napi/native_bridge_context.cpp:115-126 | nothing else adds a send and nothing takes one away |
| DisplayDispatch.OutsideIsTheLastSaid | harmony/app/common/src/main/cpp/napi/native_bridge_context.cpp:254-330 | surface and connection are what the last change of each said |
| DisplayDispatch.OutsideStepsDoExactly | harmony/app/common/src/main/cpp/napi/native_bridge_context.cpp:254-330 | what the session callbacks, a dequeue, a presented frame and an invalidated surface do, none of which holds the lock |
| DisplayDispatch.AdvancingShortens | harmony/app/common/src/main/cpp/napi/native_bridge_context.cpp:211-240 | every action brings a call nearer its end, so none holds the lock for ever |
| DisplayDispatch.ToolbarDoesExactly | harmony/app/common/src/main/cpp/napi/native_bridge_context.cpp:395-413 | a toolbar call nobody interferes with sends the pinned size, or in follow mode the size of the surface, exactly when connected, with one monitor, a surface and an allowed choice; else it changes nothing |
| DisplayDispatch.SurfaceEventDoesExactly | harmony/app/common/src/main/cpp/napi/native_bridge_context.cpp:211-240 | a surface event nobody interferes with schedules, or when it flushes sends the size of the surface, exactly in follow mode with one monitor, a surface and a connection; else it changes nothing |
| DisplayDispatch.CallbackDoesExactly | harmony/app/common/src/main/cpp/napi/native_bridge_context.cpp:422-430 | the same for the debounced callback |
| DisplayDispatch.LayoutDoesExactly | harmony/app/common/src/main/cpp/napi/native_bridge_context.cpp:432-468 | several monitors leave nothing pending and nothing pinned; staying with one goes on like a surface event |
| ScrollPolicy.ConsumeSteps | harmony/app/common/src/main/cpp/input/xcomponent_touch_policy.cpp:8-16 | takes the truncated number of steps and leaves the rest |
| ScrollPolicy.AxisScrollPolicy.Update | harmony/app/common/src/main/cpp/input/xcomponent_touch_policy.cpp:34-47 | starts over on a new source or quantum, then consumes both axes |
| ScrollPolicy.AxisScrollPolicy.Begin | harmony/app/common/src/main/cpp/input/xcomponent_touch_policy.cpp:26-32 | remembers source and a positive quantum, no remainder |
| ScrollPolicy.SystemScrollPolicy.Begin | harmony/app/common/src/main/cpp/input/xcomponent_touch_policy.cpp:143-149 | active from the given offset with no remainder |
| ScrollPolicy.SystemScrollPolicy.End | harmony/app/common/src/main/cpp/input/xcomponent_touch_policy.cpp:174-180 | inactive, with nothing left over |
| ScrollPolicy.SystemScrollPolicy.Update | harmony/app/common/src/main/cpp/input/xcomponent_touch_policy.cpp:151-172 | an inactive policy only begins; else vertical then horizontal wheel events, none for zero steps |
| ScrollPolicy.DeltasAreConserved | harmony/app/common/src/main/cpp/input/xcomponent_touch_policy.cpp:34-47 | for deltas given to the axis policy directly, from any state: steps times quantum plus remainder are the remainder before plus all deltas, below one step left, as long as source and quantum stay |
| ScrollPolicy.SentExactlyWhenPast | harmony/app/common/src/main/cpp/input/xcomponent_touch_policy.cpp:8-16 | for every movement and every m: at least m steps were sent if and only if the movement was m steps out at some point and has not come back to m - 1 since |
| ScrollPolicy.MovementIsConserved | harmony/app/common/src/main/cpp/input/xcomponent_touch_policy.cpp:151-172 | within a gesture, on each axis, the steps of all its wheel events times the quantum plus the remainder are the distance from the first offset to the last, with the remainder below one step |
| ScrollPolicy.EventsAddUp | harmony/app/common/src/main/cpp/input/xcomponent_touch_policy.cpp:151-172 | on each axis the steps of the wheel events sent are the steps taken |
| ScrollPolicy.FirstTouchOnlyBegins | harmony/app/common/src/main/cpp/input/xcomponent_touch_policy.cpp:151-158 | the first touch sends nothing; the movement is measured from it |
| ScrollPolicy.UpdateDoesExactly | harmony/app/common/src/main/cpp/input/xcomponent_touch_policy.cpp:34-47 | another source, or a quantum more than a thousandth away, forgets the remainder and takes the new quantum; then each axis splits into whole steps and a rest below one step on the side of the movement |
| ScrollPolicy.StepsDependOnDistanceOnly | harmony/app/common/src/main/cpp/input/xcomponent_touch_policy.cpp:151-172 | in a single direction the steps are the truncated distance, however the updates are chunked |
| ScrollPolicy.StepsAreTheDistanceExactlyWhen | harmony/app/common/src/main/cpp/input/xcomponent_touch_policy.cpp:151-172 | in any gesture the steps are the truncated distance if and only if it is not past the next whole step away from the start; equivalently, the remainder is zero or has the sign of the distance |
| ScrollPolicy.ReversalCanCost | harmony/app/common/src/main/cpp/input/xcomponent_touch_policy.cpp:8-16 | going past a step and back sends a step that the direct way does not |

## Left out

- RepaintRun.EveryRepaintIsAFullRepaint: a fixed target size, and buffer keys that keep naming the same memory.
- RepaintRestart.RestartIsSoundExactlyWhen: areas of fewer than two pixels are left out, because there no box of at most 650 permille leaves a pixel out.
- PermissionRequestBridge.TrueOnlyIfGranted: time is not modelled, so a wait may end by its timeout at any moment; the order in which waiters wake is free.
- Avc420WorkerRun.CompositeShowsAcceptedCommands: runs in which every command has a size, decodes and composites, so nothing is cleared; GDI backgrounds composited between commands are not part of the run.
- Avc420WorkerRun.EveryTaskIsAccountedFor: one enabled epoch; drops are counted after the lock is released, so they appear as a separate late amount.
- GdiDirtyCapture.ShareIsRounded: summed areas of 2^64 pixels and more, and frames of 2^54 and more, where the 64-bit sums wrap.
- FrameUtils.PermilleIsRoundedShare: frames of 2^54 pixels and more, for which the source multiplies past 64 bits.
- FrameUtils.MergedShareIsOfTheBox: the same frames.
- AnnexB.ExtractH264ParameterSets: data up to the size at which the 32-bit indices of the walk wrap (2^32 - 3 bytes with start codes, 2^32 - 5 without), where the code would read past the buffer; the textual summary of unit types is not returned.
- AnnexB.CollectLengthPrefixed: the same limit of 2^32 - 5 bytes, because the walk compares offset + 4 in 32 bits.
- AnnexB.CollectFromStartCodes: the same limit of 2^32 - 3 bytes, because the search after the last header compares its offset + 3 in 32 bits.
- Avc444Shaders.RoundTrip: planes are bytes and the undo threshold is 30 levels; floating-point sampling and the colour conversion to RGB are not modelled.
- Avc444GpuRenderer.Renderer.DrawRectsToTexture: rectangles inside the surface are a precondition, since the rectangle check is a call into FreeRDP that is not part of this model.
- Avc444GpuRenderer.Renderer.ApplyLuma: what the planes hold after a GL error is not stated, since GL leaves it undefined.
- Avc444GpuRenderer.Renderer.ApplyChroma: what the planes hold after a GL error is not stated either; the required height of the auxiliary luma plane is checked by a FreeRDP helper that is not part of this model; any positive height is allowed.
- Avc420ShownUpdates.PresentShowsItsUpdate: of a pixel only which update painted it, not its colour; the window shows the composite scaled, and which composite pixels the scaling samples is not modelled.
- Avc420PendingPresent.Compositor.ProcessGdiFrame: dirty boxes do not wrap around 32 bits, as captured ones never do.
- DisplayDispatch.SendsRespectTheMode: the expiry of a pending request, which a snapshot or a pointer event performs on the settings, is no step of the runs; it changes only the status and the pending flag, which no statement about sends reads.
- ScrollPolicy.StepsDependOnDistanceOnly: step counts are unbounded integers, without the 32-bit cast.
- LatestFrameRenderer.Renderer.TakePending: pacing between frames only delays this step; throttling, timing and log counters are not modelled.
- NativeWindowPainter.Painter.Render: the window buffer arrives as an array with its row length (choosing it, mapping and fences are foreign calls), and dirty boxes do not wrap around 32 bits, as captured ones never do.
- Counters and generations are unbounded, except the request id and the 32- and 64-bit arithmetic of boxes and sizes.
- The GPU texture upload of the RGBA renderer, which does not consult sequences.
- Decoder bootstrap from cached parameter sets, decoder presentation times, and the native-import fallback beyond its effect on the pending flags.
- The background-seed decision before AVC420 takes over the output.
- The shape classifier of text cursors, the pan and tap policies, clipboard, audio, input method, TLS and configuration.
