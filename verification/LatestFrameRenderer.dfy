/** The render queue of depth one (surface/latest_frame_renderer.cpp): frames that arrive while one is
    waiting are coalesced into it. Every method is one region held under the queue's mutex. */
module LatestFrameRenderer {
  import opened FrameUtils
  import opened NativeRgbaCopy

  /** A frame's content, taken as a snapshot at the time it is handed over. */
  type Picture = (nat, nat) -> Pixel

  datatype RgbaFrame = RgbaFrame(hasData: bool, width: U32, height: U32, strideBytes: int, pixels: Picture,
                                 dirty: DirtyFrameStats)

  datatype PendingFrame = PendingFrame(width: U32, height: U32, forceRender: bool, dirty: DirtyFrameStats,
                                       sequence: nat, dirtySequenceStart: nat, pixels: Picture)

  datatype Counters = Counters(queued: nat, rendered: nat, failed: nat, replaced: nat, full: nat, partial: nat)

  datatype RendererState = RendererState(running: bool, hasPending: bool, pending: PendingFrame,
                                         frameSequence: nat, counters: Counters)

  const ZERO_COUNTERS := Counters(0, 0, 0, 0, 0, 0)
  const NO_PICTURE: Picture := (x, y) => LETTERBOX
  const NO_FRAME := PendingFrame(0, 0, false, NO_DIRTY, 0, 0, NO_PICTURE)

  function ToInt32(n: nat): int {
    var cut := n % U32_LIMIT;
    if cut < 0x8000_0000 then cut else cut - U32_LIMIT
  }

  /** The stride a frame is read with: the given one, or a tight one. */
  function SourceStride(frame: RgbaFrame): int {
    if frame.strideBytes > 0 then frame.strideBytes else ToInt32(frame.width * 4)
  }

  predicate FrameAccepted(frame: RgbaFrame) {
    frame.hasData && frame.width != 0 && frame.height != 0 && SourceStride(frame) >= ToInt32(frame.width * 4)
  }

  /** There is data, no side is empty, and a stride that is given holds a row, counted in 32 bits: a row of 2^31 to
      2^32 bytes, modulo 2^32, is taken for negative and held by every stride. */
  lemma AcceptedExactlyWhen(frame: RgbaFrame)
    ensures FrameAccepted(frame) <==>
              && frame.hasData && 0 < frame.width && 0 < frame.height
              && (frame.strideBytes <= 0 || frame.width % 0x4000_0000 >= 0x2000_0000
                  || 4 * (frame.width % 0x4000_0000) <= frame.strideBytes)
  {
    RowInBytes(frame.width);
  }

  lemma RowInBytes(width: U32)
    ensures 4 * width % U32_LIMIT == 4 * (width % 0x4000_0000)
  {
    var turns, rest := width / 0x4000_0000, width % 0x4000_0000;
    assert 4 * width == turns * U32_LIMIT + 4 * rest;
  }

  /** So a frame accepted with a stride of its own really holds its rows exactly when it is less than 2^29 wide. */
  lemma AcceptedHoldsItsRowsExactlyWhen(frame: RgbaFrame)
    requires FrameAccepted(frame) && 0 < frame.strideBytes < 0x8000_0000
    ensures 4 * frame.width <= frame.strideBytes <==> frame.width < 0x2000_0000
  {
    AcceptedExactlyWhen(frame);
  }

  /** Without one, it is read with tight rows as long as it is less than 2^29 wide. */
  lemma TightRows(frame: RgbaFrame)
    requires frame.strideBytes <= 0 && frame.width < 0x2000_0000
    ensures SourceStride(frame) == 4 * frame.width
  {
  }

  // ---- The regions as functions of the state ----

  function Started(s: RendererState): RendererState {
    if s.running then s
    else s.(running := true, hasPending := false, counters := ZERO_COUNTERS, frameSequence := 0)
  }

  function Stopped(s: RendererState): RendererState { s.(running := false, hasPending := false) }

  function Dropped(s: RendererState): RendererState {
    if !s.hasPending then s
    else s.(hasPending := false, counters := s.counters.(replaced := s.counters.replaced + 1))
  }

  /** What the queue waits with once `next` has absorbed the frame that was waiting. */
  function Coalesced(waiting: PendingFrame, next: PendingFrame): PendingFrame {
    var forced := next.(forceRender := next.forceRender || waiting.forceRender);
    if waiting.width == next.width && waiting.height == next.height then
      forced.(dirty := MergeDirtyStats(waiting.dirty, next.dirty, next.width, next.height),
              dirtySequenceStart := if waiting.dirtySequenceStart > 0 then waiting.dirtySequenceStart
                                    else next.dirtySequenceStart)
    else forced
  }

  function Enqueued(s: RendererState, frame: RgbaFrame, forceRender: bool): RendererState {
    if !FrameAccepted(frame) || !s.running then s
    else
      var sequence := s.frameSequence + 1;
      var next := PendingFrame(frame.width, frame.height, forceRender, frame.dirty, sequence, sequence, frame.pixels);
      var c := s.counters.(queued := s.counters.queued + 1);
      s.(frameSequence := sequence, hasPending := true,
         pending := if s.hasPending then Coalesced(s.pending, next) else next,
         counters := if s.hasPending then c.(replaced := c.replaced + 1) else c)
  }

  function Taken(s: RendererState): RendererState { s.(hasPending := false) }

  function Finished(s: RendererState, ok: bool, partial: bool): RendererState {
    var c := s.counters;
    s.(counters :=
       if !ok then c.(failed := c.failed + 1)
       else if partial then c.(rendered := c.rendered + 1, partial := c.partial + 1)
       else c.(rendered := c.rendered + 1, full := c.full + 1))
  }

  class Renderer {
    var running: bool
    var hasPending: bool
    var pending: PendingFrame
    var frameSequence: nat
    var queuedCount: nat
    var renderedCount: nat
    var failedCount: nat
    var replacedCount: nat
    var fullRenderedCount: nat
    var partialRenderedCount: nat

    ghost function State(): RendererState
      reads this
    {
      RendererState(running, hasPending, pending, frameSequence,
                    Counters(queuedCount, renderedCount, failedCount, replacedCount,
                             fullRenderedCount, partialRenderedCount))
    }

    constructor ()
      ensures State() == RendererState(false, false, NO_FRAME, 0, ZERO_COUNTERS)
    {
      running, hasPending, pending, frameSequence := false, false, NO_FRAME, 0;
      queuedCount, renderedCount, failedCount, replacedCount := 0, 0, 0, 0;
      fullRenderedCount, partialRenderedCount := 0, 0;
    }

    method Start()
      modifies this
      ensures State() == Started(old(State()))
    {
      if running {
        return;
      }
      hasPending := false;
      queuedCount, renderedCount, failedCount, replacedCount := 0, 0, 0, 0;
      fullRenderedCount, partialRenderedCount := 0, 0;
      frameSequence := 0;
      running := true;
    }

    method Stop()
      modifies this
      ensures State() == Stopped(old(State()))
    {
      running := false;
      hasPending := false;
    }

    method DropPending() returns (dropped: bool)
      modifies this
      ensures dropped == old(hasPending)
      ensures State() == Dropped(old(State()))
    {
      if !hasPending {
        return false;
      }
      hasPending := false;
      replacedCount := replacedCount + 1;
      return true;
    }

    method Enqueue(frame: RgbaFrame, forceRender: bool) returns (accepted: bool)
      modifies this
      ensures accepted == (FrameAccepted(frame) && old(running))
      ensures State() == Enqueued(old(State()), frame, forceRender)
    {
      if !frame.hasData || frame.width == 0 || frame.height == 0 || SourceStride(frame) < ToInt32(frame.width * 4) {
        return false;
      }
      var next := PendingFrame(frame.width, frame.height, forceRender, frame.dirty, 0, 0, frame.pixels);
      if !running {
        return false;
      }
      frameSequence := frameSequence + 1;
      next := next.(sequence := frameSequence, dirtySequenceStart := frameSequence);
      if hasPending {
        next := next.(forceRender := next.forceRender || pending.forceRender);
        if pending.width == next.width && pending.height == next.height {
          next := next.(dirty := MergeDirtyStats(pending.dirty, next.dirty, next.width, next.height));
          if pending.dirtySequenceStart > 0 {
            next := next.(dirtySequenceStart := pending.dirtySequenceStart);
          }
        }
        replacedCount := replacedCount + 1;
      }
      queuedCount := queuedCount + 1;
      pending := next;
      hasPending := true;
      return true;
    }

    /** The end of the worker's wait: the waiting frame leaves the queue. */
    method TakePending() returns (frame: PendingFrame)
      requires hasPending
      modifies this
      ensures frame == old(pending)
      ensures State() == Taken(old(State()))
    {
      frame := pending;
      hasPending := false;
    }

    /** The counters after the worker painted a frame. */
    method FinishFrame(ok: bool, partial: bool)
      modifies this
      ensures State() == Finished(old(State()), ok, partial)
    {
      if ok {
        renderedCount := renderedCount + 1;
        if partial {
          partialRenderedCount := partialRenderedCount + 1;
        } else {
          fullRenderedCount := fullRenderedCount + 1;
        }
      } else {
        failedCount := failedCount + 1;
      }
    }
  }
}
