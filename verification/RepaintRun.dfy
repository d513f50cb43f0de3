/** Whole runs of the render thread and the CPU painter together, from one Start on: frames are queued,
    coalesced, dropped, taken and painted, calls into the window system fail, sizes change and history is
    trimmed. From a painter that remembers no buffer of the painted size, every successful repaint equals
    a full repaint. */
module RepaintRun {
  import opened FrameUtils
  import opened NativeRgbaCopy
  import opened LatestFrameRenderer
  import opened NativeWindowPainter

  /** What the worker is doing with the frame it took. */
  datatype Flight = Idle | Rendering(frame: PendingFrame) | Painted(frame: PendingFrame, ok: bool, partial: bool)

  /** A frame as it was accepted into the queue, kept to state what a run means. */
  datatype Source = Source(width: U32, height: U32, pixels: Picture, dirty: DirtyFrameStats, force: bool)

  datatype World = World(
    renderer: RendererState,
    painter: PainterState,
    buffers: nat -> Picture,      // what each window buffer shows in the painted area
    flight: Flight,
    frames: seq<Source>,          // At(frames, n) is the frame of sequence n
    taken: nat,                   // the last sequence the worker took
    groupStart: nat,              // the first frame coalesced into the waiting one
    discarded: nat,               // waiting frames thrown away by Stop
    dequeued: seq<PendingFrame>)

  datatype Step =
    | EnqueueFrame(frame: RgbaFrame, force: bool)
    | DropWaiting
    | TakeWaiting
    | Paint(bufferKey: nat, outcome: WindowOutcome)
    | Finish
    | StopQueue

  /** The frame of sequence n. */
  function At(frames: seq<Source>, n: nat): Source
    requires 1 <= n <= |frames|
  {
    frames[n - 1]
  }

  datatype Area = Area(width: U32, height: U32)

  /** Start: nothing queued, nothing sequenced; the painter and the buffers are whatever they were. */
  function Begun(renderer: RendererState, painter: PainterState, buffers: nat -> Picture): World {
    World(Started(renderer.(running := false)), painter, buffers, Idle, [], 0, 0, 0, [])
  }

  /** A world as Start leaves it. */
  predicate Fresh(w: World) {
    && w.renderer.running && !w.renderer.hasPending && w.renderer.frameSequence == 0
    && w.renderer.counters == ZERO_COUNTERS
    && w.flight.Idle? && w.frames == [] && w.taken == 0 && w.discarded == 0 && w.dequeued == []
  }

  lemma BegunIsFresh(renderer: RendererState, painter: PainterState, buffers: nat -> Picture)
    ensures Fresh(Begun(renderer, painter, buffers))
  {
  }

  function Stored(buffers: nat -> Picture, key: nat, picture: Picture): nat -> Picture {
    (k: nat) => if k == key then picture else buffers(k)
  }

  /** A frame of the size of the last sequenced one differs from it only inside its dirty box; an
      invalid box means no difference. Boxes do not wrap around 32 bits. */
  ghost predicate HonestAfter(frames: seq<Source>, frame: Source) {
    && NoWrap(frame.dirty)
    && (frames != [] && frames[|frames| - 1].width == frame.width && frames[|frames| - 1].height == frame.height ==>
          forall x: nat, y: nat | x < frame.width && y < frame.height && !Covers(frame.dirty, x, y) ::
            frame.pixels(x, y) == frames[|frames| - 1].pixels(x, y))
  }

  function SourceOf(frame: RgbaFrame, force: bool): Source {
    Source(frame.width, frame.height, frame.pixels, frame.dirty, force)
  }

  ghost predicate Enabled(w: World, step: Step) {
    match step
    case EnqueueFrame(frame, force) =>
      FrameAccepted(frame) && w.renderer.running ==> HonestAfter(w.frames, SourceOf(frame, force))
    case DropWaiting => true
    case TakeWaiting => w.renderer.hasPending && w.flight.Idle?
    case Paint(key, outcome) => w.flight.Rendering? && key != 0 && 0 < w.flight.frame.width && 0 < w.flight.frame.height
    case Finish => w.flight.Painted?
    case StopQueue => true
  }

  function Next(w: World, step: Step, area: Area): World
    requires Enabled(w, step)
  {
    match step
    case EnqueueFrame(frame, force) =>
      if !FrameAccepted(frame) || !w.renderer.running then w
      else w.(renderer := Enqueued(w.renderer, frame, force), frames := w.frames + [SourceOf(frame, force)],
              groupStart := if w.renderer.hasPending then w.groupStart else |w.frames| + 1)
    case DropWaiting => w.(renderer := Dropped(w.renderer))
    case TakeWaiting =>
      var frame := w.renderer.pending;
      w.(renderer := Taken(w.renderer), flight := Rendering(frame), taken := frame.sequence,
         dequeued := w.dequeued + [frame])
    case Paint(key, outcome) =>
      var frame := w.flight.frame;
      if outcome.Refused? then w.(flight := Painted(frame, false, false))
      else
        var viewport := FitFrameIntoTarget(area.width, area.height, frame.width, frame.height);
        var dirty := PartialDirty(w.painter, key, frame, area.width, area.height, viewport);
        var picture := if dirty.Some? then PartialPicture(frame, dirty.value, w.buffers(key))
                       else FullPicture(frame, area.width, area.height);
        w.(buffers := Stored(w.buffers, key, picture),
           painter := if outcome.Flushed? then Recorded(w.painter, key, frame) else w.painter,
           flight := Painted(frame, outcome.Flushed?, dirty.Some?))
    case Finish => w.(renderer := Finished(w.renderer, w.flight.ok, w.flight.partial), flight := Idle)
    case StopQueue =>
      w.(renderer := Stopped(w.renderer), discarded := w.discarded + (if w.renderer.hasPending then 1 else 0))
  }

  // ---- Invariants ----

  /** `dirty` covers every change of the frames of sequences from..to, and all have one size. */
  ghost predicate Summarises(frames: seq<Source>, from: nat, to: nat, width: U32, height: U32, dirty: DirtyFrameStats) {
    && 1 <= from <= to <= |frames|
    && forall n: nat | from <= n <= to ::
         && At(frames, n).width == width && At(frames, n).height == height
         && forall x: nat, y: nat | x < width && y < height && Covers(At(frames, n).dirty, x, y) :: Covers(dirty, x, y)
  }

  ghost predicate Describes(frames: seq<Source>, frame: PendingFrame) {
    && 0 < frame.width && 0 < frame.height
    && Summarises(frames, frame.dirtySequenceStart, frame.sequence, frame.width, frame.height, frame.dirty)
    && frame.pixels == At(frames, frame.sequence).pixels
  }

  ghost predicate AllHonest(frames: seq<Source>) {
    forall n: nat | n < |frames| :: HonestAfter(frames[..n], frames[n])
  }

  /** No remembered history covers sequence m. */
  ghost predicate Missing(history: seq<HistoryEntry>, m: nat) {
    forall i | 0 <= i < |history| :: !(history[i].fromSequence <= m <= history[i].toSequence)
  }

  /** One of the frames from sequence `first` on was enqueued to be rendered in any case. */
  ghost predicate AnyForced(frames: seq<Source>, first: nat) {
    exists n: nat | 1 <= first <= n <= |frames| :: At(frames, n).force
  }

  ghost predicate QueueInv(w: World) {
    && w.renderer.frameSequence == |w.frames| && AllHonest(w.frames)
    && w.taken <= |w.frames|
    && (w.renderer.hasPending ==>
          && w.renderer.running
          && Describes(w.frames, w.renderer.pending)
          && w.renderer.pending.sequence == |w.frames|
          && w.taken < w.groupStart <= w.renderer.pending.dirtySequenceStart
          && w.renderer.pending.forceRender == AnyForced(w.frames, w.groupStart))
  }

  ghost predicate FlightInv(w: World) {
    && (w.flight.Rendering? || w.flight.Painted? ==>
          Describes(w.frames, w.flight.frame) && w.flight.frame.sequence == w.taken)
    && (w.flight.Rendering? ==>
          forall i | 0 <= i < |w.painter.history| ::
            w.painter.history[i].toSequence < w.flight.frame.dirtySequenceStart)
    && forall i | 0 <= i < |w.painter.history| :: w.painter.history[i].toSequence <= w.taken
  }

  ghost predicate HistoryInv(w: World) {
    forall i | 0 <= i < |w.painter.history| ::
      var e := w.painter.history[i];
      Summarises(w.frames, e.fromSequence, e.toSequence, w.painter.width, w.painter.height, e.dirty)
  }

  /** A remembered buffer shows exactly its recorded frame, or a later sequence is missing from the
      history for good. */
  ghost predicate BufferSound(w: World, area: Area, key: nat)
    requires key in w.painter.bufferSequences
  {
    var last := w.painter.bufferSequences[key];
    && 1 <= last <= w.taken <= |w.frames|
    && 0 < w.painter.width && 0 < w.painter.height
    && At(w.frames, last).width == w.painter.width && At(w.frames, last).height == w.painter.height
    && (w.flight.Rendering? ==> last < w.flight.frame.dirtySequenceStart)
    && (|| SamePicture(w.buffers(key), FullOf(At(w.frames, last), area), area.width, area.height)
        || exists m: nat :: last < m <= w.taken && (w.flight.Rendering? ==> m < w.flight.frame.dirtySequenceStart)
                            && Missing(w.painter.history, m))
  }

  function AsPending(source: Source): PendingFrame {
    PendingFrame(source.width, source.height, source.force, source.dirty, 0, 0, source.pixels)
  }

  function FullOf(source: Source, area: Area): Picture
    requires 0 < source.width && 0 < source.height
  {
    FullPicture(AsPending(source), area.width, area.height)
  }

  ghost predicate BuffersInv(w: World, area: Area) {
    forall key | key in w.painter.bufferSequences :: BufferSound(w, area, key)
  }

  ghost predicate CountersInv(w: World) {
    var c := w.renderer.counters;
    && c.queued == c.rendered + c.failed + c.replaced + w.discarded + (if w.renderer.hasPending then 1 else 0)
                   + (if w.flight.Idle? then 0 else 1)
    && c.rendered == c.full + c.partial
    && (w.renderer.running ==> w.discarded == 0)
  }

  /** What the worker took: increasing, disjoint intervals, each summarised by its box. */
  ghost predicate DequeuedInv(w: World) {
    && (forall i | 0 <= i < |w.dequeued| :: Describes(w.frames, w.dequeued[i]) && w.dequeued[i].sequence <= w.taken)
    && (forall i, j | 0 <= i < j < |w.dequeued| :: w.dequeued[i].sequence < w.dequeued[j].dirtySequenceStart)
  }

  ghost predicate Inv(w: World, area: Area) {
    && QueueInv(w) && FlightInv(w) && HistoryInv(w) && BuffersInv(w, area) && CountersInv(w) && DequeuedInv(w)
  }

  // ---- Growing the list of frames keeps what was said about it ----

  lemma SummaryGrows(frames: seq<Source>, more: Source, from: nat, to: nat, width: U32, height: U32,
                     dirty: DirtyFrameStats)
    requires Summarises(frames, from, to, width, height, dirty)
    ensures Summarises(frames + [more], from, to, width, height, dirty)
  {
    forall n: nat | from <= n <= to ensures At(frames + [more], n) == At(frames, n) {}
  }

  lemma HonestyGrows(frames: seq<Source>, more: Source)
    requires AllHonest(frames) && HonestAfter(frames, more)
    ensures AllHonest(frames + [more])
  {
    var grown := frames + [more];
    forall n: nat | n < |grown| ensures HonestAfter(grown[..n], grown[n]) {
      if n < |frames| { assert grown[..n] == frames[..n]; } else { assert grown[..n] == frames; }
    }
  }

  /** A frame coalesced into the waiting one is summarised together with it. */
  lemma CoalescedDescribes(frames: seq<Source>, waiting: PendingFrame, next: PendingFrame, more: Source)
    requires Describes(frames, waiting) && waiting.sequence == |frames|
    requires 0 < next.width && 0 < next.height && next.pixels == more.pixels && next.dirty == more.dirty
    requires next.width == more.width && next.height == more.height
    requires next.sequence == next.dirtySequenceStart == |frames| + 1
    ensures Describes(frames + [more], Coalesced(waiting, next))
  {
    var grown, result := frames + [more], Coalesced(waiting, next);
    if waiting.width == next.width && waiting.height == next.height {
      forall n: nat | waiting.dirtySequenceStart <= n <= next.sequence
        ensures At(grown, n).width == next.width && At(grown, n).height == next.height
        ensures forall x: nat, y: nat | x < next.width && y < next.height && Covers(At(grown, n).dirty, x, y) ::
                  Covers(result.dirty, x, y)
      {
        if n <= |frames| {
          assert At(grown, n) == At(frames, n);
        }
        forall x: nat, y: nat | x < next.width && y < next.height && Covers(At(grown, n).dirty, x, y)
          ensures Covers(result.dirty, x, y)
        {
          if n <= waiting.sequence {
            assert Covers(waiting.dirty, x, y);
          }
          MergeCoversBoth(waiting.dirty, next.dirty, next.width, next.height, x, y);
        }
      }
    }
  }

  // ---- The chain walk ----

  lemma {:induction false} WalkCoversGap(history: seq<HistoryEntry>, last: nat, chain: Chain, width: U32, height: U32,
                                         m: nat)
    requires Walk(history, last, chain, width, height).Some?
    requires chain.expected <= m < Walk(history, last, chain, width, height).value.expected
    ensures !Missing(history, m)
  {
    if history != [] {
      var e := history[0];
      var rest := history[1..];
      if e.toSequence <= last {
        WalkCoversGap(rest, last, chain, width, height, m);
        var i :| 0 <= i < |rest| && rest[i].fromSequence <= m <= rest[i].toSequence;
        assert history[i + 1] == rest[i];
      } else if m <= e.toSequence {
        assert history[0].fromSequence <= m <= history[0].toSequence;
      } else {
        WalkCoversGap(rest, last, Chain(e.toSequence + 1, MergeDirtyStats(chain.dirty, e.dirty, width, height)), width,
                      height, m);
        var i :| 0 <= i < |rest| && rest[i].fromSequence <= m <= rest[i].toSequence;
        assert history[i + 1] == rest[i];
      }
    }
  }

  /** The box of the walk covers every box it walked over and the one it started from. */
  lemma {:induction false} WalkCoversBoxes(history: seq<HistoryEntry>, last: nat, chain: Chain, width: U32, height: U32,
                                           x: nat, y: nat)
    requires x < width && y < height
    requires Walk(history, last, chain, width, height).Some?
    requires Covers(chain.dirty, x, y) ||
             exists i | 0 <= i < |history| :: history[i].toSequence > last && Covers(history[i].dirty, x, y)
    ensures Covers(Walk(history, last, chain, width, height).value.dirty, x, y)
  {
    if history != [] {
      var e := history[0];
      var rest := history[1..];
      if !Covers(chain.dirty, x, y) && !(e.toSequence > last && Covers(e.dirty, x, y)) {
        var i :| 0 <= i < |history| && history[i].toSequence > last && Covers(history[i].dirty, x, y);
        assert rest[i - 1] == history[i];
      }
      if e.toSequence <= last {
        WalkCoversBoxes(rest, last, chain, width, height, x, y);
      } else {
        var merged := MergeDirtyStats(chain.dirty, e.dirty, width, height);
        if Covers(chain.dirty, x, y) || Covers(e.dirty, x, y) {
          MergeCoversBoth(chain.dirty, e.dirty, width, height, x, y);
        }
        WalkCoversBoxes(rest, last, Chain(e.toSequence + 1, merged), width, height, x, y);
      }
    }
  }

  /** A pixel that no frame of sequences from+1..to touches keeps its value. */
  lemma {:induction false} UntouchedPixel(frames: seq<Source>, lo: nat, hi: nat, width: U32, height: U32, x: nat,
                                          y: nat)
    requires AllHonest(frames) && 1 <= lo <= hi <= |frames| && x < width && y < height
    requires forall n: nat | lo <= n <= hi :: At(frames, n).width == width && At(frames, n).height == height
    requires forall n: nat | lo < n <= hi :: !Covers(At(frames, n).dirty, x, y)
    ensures At(frames, hi).pixels(x, y) == At(frames, lo).pixels(x, y)
    decreases hi
  {
    if lo < hi {
      UntouchedPixel(frames, lo, hi - 1, width, height, x, y);
      assert HonestAfter(frames[..hi - 1], frames[hi - 1]);
      assert frames[..hi - 1][hi - 2] == frames[hi - 2];
      assert !Covers(At(frames, hi).dirty, x, y);
    }
  }

  /** Every sequence after the buffer's, up to the frame's, lies in the walked history or in the frame. */
  lemma ChainHasNoHole(w: World, area: Area, key: nat, viewport: RenderViewport, n: nat)
    requires Inv(w, area) && w.flight.Rendering?
    requires PartialDirty(w.painter, key, w.flight.frame, area.width, area.height, viewport).Some?
    requires w.painter.bufferSequences[key] < n < w.flight.frame.dirtySequenceStart
    ensures !Missing(w.painter.history, n)
  {
    var last := w.painter.bufferSequences[key];
    var frame := w.flight.frame;
    WalkCoversGap(w.painter.history, last, Chain(last + 1, NO_DIRTY), frame.width, frame.height, n);
  }

  /** The box of a partial repaint covers every change since the buffer was painted. */
  lemma PartialBoxCovers(w: World, area: Area, key: nat, viewport: RenderViewport, n: nat, x: nat, y: nat)
    requires Inv(w, area) && w.flight.Rendering?
    requires PartialDirty(w.painter, key, w.flight.frame, area.width, area.height, viewport).Some?
    requires w.painter.bufferSequences[key] < n <= w.flight.frame.sequence
    requires x < w.flight.frame.width && y < w.flight.frame.height
    ensures At(w.frames, n).width == w.flight.frame.width && At(w.frames, n).height == w.flight.frame.height
    ensures Covers(At(w.frames, n).dirty, x, y) ==>
              Covers(PartialDirty(w.painter, key, w.flight.frame, area.width, area.height, viewport).value, x, y)
  {
    var last := w.painter.bufferSequences[key];
    var frame := w.flight.frame;
    var chain := Walk(w.painter.history, last, Chain(last + 1, NO_DIRTY), frame.width, frame.height).value;
    if n < frame.dirtySequenceStart {
      ChainHasNoHole(w, area, key, viewport, n);
      var i :| 0 <= i < |w.painter.history|
        && w.painter.history[i].fromSequence <= n <= w.painter.history[i].toSequence;
      var e := w.painter.history[i];
      assert Summarises(w.frames, e.fromSequence, e.toSequence, w.painter.width, w.painter.height, e.dirty);
      if Covers(At(w.frames, n).dirty, x, y) {
        assert Covers(e.dirty, x, y) && e.toSequence > last;
        WalkCoversBoxes(w.painter.history, last, Chain(last + 1, NO_DIRTY), frame.width, frame.height, x, y);
        MergeCoversBoth(chain.dirty, frame.dirty, frame.width, frame.height, x, y);
      }
    } else if Covers(At(w.frames, n).dirty, x, y) {
      assert Covers(frame.dirty, x, y);
      MergeCoversBoth(chain.dirty, frame.dirty, frame.width, frame.height, x, y);
    }
  }

  /** A buffer that a partial repaint may use still shows exactly its recorded frame. */
  lemma UsableBufferIsExact(w: World, area: Area, key: nat, viewport: RenderViewport)
    requires Inv(w, area) && w.flight.Rendering?
    requires PartialDirty(w.painter, key, w.flight.frame, area.width, area.height, viewport).Some?
    ensures var last := w.painter.bufferSequences[key];
            && 1 <= last < w.flight.frame.dirtySequenceStart && last <= |w.frames|
            && At(w.frames, last).width == w.flight.frame.width && At(w.frames, last).height == w.flight.frame.height
            && SamePicture(w.buffers(key), FullOf(At(w.frames, last), area), area.width, area.height)
  {
    var last := w.painter.bufferSequences[key];
    assert BufferSound(w, area, key);
    forall m: nat | last < m < w.flight.frame.dirtySequenceStart ensures !Missing(w.painter.history, m) {
      ChainHasNoHole(w, area, key, viewport, m);
    }
  }

  /** A frame that fills the area is painted pixel for pixel. */
  lemma FullPictureIsPixels(frame: PendingFrame, area: Area, x: nat, y: nat)
    requires x < area.width && y < area.height && frame.width == area.width && frame.height == area.height
    ensures FullPicture(frame, area.width, area.height)(x, y) == frame.pixels(x, y)
  {
    RemoteContentGeometry.EqualSizesAreOneToOne(area.width, area.height);
    SampleIsIdentityAtEqualSize(x, frame.width);
    SampleIsIdentityAtEqualSize(y, frame.height);
  }

  lemma PartialPixelEqualsFull(w: World, area: Area, key: nat, viewport: RenderViewport, x: nat, y: nat)
    requires Inv(w, area) && w.flight.Rendering? && x < area.width && y < area.height
    requires PartialDirty(w.painter, key, w.flight.frame, area.width, area.height, viewport).Some?
    ensures var frame := w.flight.frame;
            var dirty := PartialDirty(w.painter, key, frame, area.width, area.height, viewport).value;
            PartialPicture(frame, dirty, w.buffers(key))(x, y) == frame.pixels(x, y)
  {
    var frame := w.flight.frame;
    var dirty := PartialDirty(w.painter, key, frame, area.width, area.height, viewport).value;
    var last := w.painter.bufferSequences[key];
    if !Covers(dirty, x, y) {
      UsableBufferIsExact(w, area, key, viewport);
      forall n: nat | last < n <= frame.sequence
        ensures At(w.frames, n).width == frame.width && At(w.frames, n).height == frame.height
        ensures !Covers(At(w.frames, n).dirty, x, y)
      {
        PartialBoxCovers(w, area, key, viewport, n, x, y);
      }
      UntouchedPixel(w.frames, last, frame.sequence, frame.width, frame.height, x, y);
      FullPictureIsPixels(AsPending(At(w.frames, last)), area, x, y);
      assert w.buffers(key)(x, y) == At(w.frames, last).pixels(x, y);
    }
  }

  /** A partial repaint that the painter allows gives the full picture. */
  lemma PartialEqualsFull(w: World, area: Area, key: nat, viewport: RenderViewport)
    requires Inv(w, area) && w.flight.Rendering?
    requires PartialDirty(w.painter, key, w.flight.frame, area.width, area.height, viewport).Some?
    ensures var frame := w.flight.frame;
            var dirty := PartialDirty(w.painter, key, frame, area.width, area.height, viewport).value;
            SamePicture(PartialPicture(frame, dirty, w.buffers(key)), FullPicture(frame, area.width, area.height),
                        area.width, area.height)
  {
    forall x: nat, y: nat | x < area.width && y < area.height
      ensures var frame := w.flight.frame;
              var dirty := PartialDirty(w.painter, key, frame, area.width, area.height, viewport).value;
              PartialPicture(frame, dirty, w.buffers(key))(x, y) == FullPicture(frame, area.width, area.height)(x, y)
    {
      PartialPixelEqualsFull(w, area, key, viewport, x, y);
      FullPictureIsPixels(w.flight.frame, area, x, y);
    }
  }

  // ---- Every step keeps the invariant ----

  lemma DescribesGrows(frames: seq<Source>, more: Source, frame: PendingFrame)
    requires Describes(frames, frame)
    ensures Describes(frames + [more], frame)
  {
    SummaryGrows(frames, more, frame.dirtySequenceStart, frame.sequence, frame.width, frame.height, frame.dirty);
    assert At(frames + [more], frame.sequence) == At(frames, frame.sequence);
  }

  lemma EnqueueKeepsQueue(w: World, frame: RgbaFrame, force: bool, area: Area)
    requires QueueInv(w) && Enabled(w, EnqueueFrame(frame, force))
    ensures QueueInv(Next(w, EnqueueFrame(frame, force), area))
  {
    if FrameAccepted(frame) && w.renderer.running {
      HonestyGrows(w.frames, SourceOf(frame, force));
      if w.renderer.hasPending {
        EnqueueOntoWaiting(w, frame, force, area);
      } else {
        EnqueueAlone(w, frame, force, area);
      }
    }
  }

  lemma EnqueueAlone(w: World, frame: RgbaFrame, force: bool, area: Area)
    requires QueueInv(w) && !w.renderer.hasPending && FrameAccepted(frame)
             && AllHonest(w.frames + [SourceOf(frame, force)])
    requires Enabled(w, EnqueueFrame(frame, force))
    ensures QueueInv(Next(w, EnqueueFrame(frame, force), area))
  {
    NewestIsForced(w.frames, SourceOf(frame, force));
    NewestDescribes(w.frames, SourceOf(frame, force));
  }

  lemma EnqueueOntoWaiting(w: World, frame: RgbaFrame, force: bool, area: Area)
    requires QueueInv(w) && w.renderer.hasPending && FrameAccepted(frame)
             && AllHonest(w.frames + [SourceOf(frame, force)])
    requires Enabled(w, EnqueueFrame(frame, force))
    ensures QueueInv(Next(w, EnqueueFrame(frame, force), area))
  {
    var more := SourceOf(frame, force);
    var sequence := |w.frames| + 1;
    var next := PendingFrame(frame.width, frame.height, force, frame.dirty, sequence, sequence, frame.pixels);
    CoalescedDescribes(w.frames, w.renderer.pending, next, more);
    ForceSurvives(w.frames, more, w.groupStart);
  }

  lemma NewestDescribes(frames: seq<Source>, more: Source)
    requires 0 < more.width && 0 < more.height
    ensures Describes(frames + [more], PendingFrame(more.width, more.height, more.force, more.dirty, |frames| + 1,
                                                    |frames| + 1, more.pixels))
  {
    assert At(frames + [more], |frames| + 1) == more;
  }

  lemma NewestIsForced(frames: seq<Source>, more: Source)
    ensures AnyForced(frames + [more], |frames| + 1) == more.force
  {
    assert At(frames + [more], |frames| + 1) == more;
  }

  /** The force flag of the waiting frame is the disjunction over everything coalesced into it. */
  lemma ForceSurvives(frames: seq<Source>, more: Source, first: nat)
    requires 1 <= first <= |frames|
    ensures AnyForced(frames + [more], first) <==> more.force || AnyForced(frames, first)
  {
    var grown := frames + [more];
    assert At(grown, |grown|) == more;
    if AnyForced(frames, first) {
      var n: nat :| first <= n <= |frames| && At(frames, n).force;
      assert At(grown, n).force;
    }
    if AnyForced(grown, first) {
      var n: nat :| first <= n <= |grown| && At(grown, n).force;
      if n <= |frames| { assert At(frames, n).force; }
    }
  }

  /** What was true of the frames so far stays true when one more is queued. */
  lemma FramesGrow(w: World, v: World, more: Source, area: Area)
    requires Inv(w, area) && v.frames == w.frames + [more] && v.painter == w.painter && v.flight == w.flight
    requires v.buffers == w.buffers && v.taken == w.taken && v.dequeued == w.dequeued
    ensures HistoryInv(v) && FlightInv(v)
    ensures forall key | key in v.painter.bufferSequences :: BufferSound(v, area, key)
    ensures forall i | 0 <= i < |v.dequeued| :: Describes(v.frames, v.dequeued[i])
  {
    if !w.flight.Idle? { DescribesGrows(w.frames, more, w.flight.frame); }
    forall i | 0 <= i < |w.painter.history|
      ensures var e := v.painter.history[i];
              Summarises(v.frames, e.fromSequence, e.toSequence, v.painter.width, v.painter.height, e.dirty)
    {
      var e := w.painter.history[i];
      SummaryGrows(w.frames, more, e.fromSequence, e.toSequence, w.painter.width, w.painter.height, e.dirty);
    }
    forall key | key in v.painter.bufferSequences ensures BufferSound(v, area, key) {
      assert BufferSound(w, area, key);
      assert At(v.frames, w.painter.bufferSequences[key]) == At(w.frames, w.painter.bufferSequences[key]);
    }
    forall i | 0 <= i < |w.dequeued| ensures Describes(v.frames, v.dequeued[i]) {
      DescribesGrows(w.frames, more, w.dequeued[i]);
    }
  }

  lemma EnqueueKeeps(w: World, frame: RgbaFrame, force: bool, area: Area)
    requires Inv(w, area) && Enabled(w, EnqueueFrame(frame, force))
    ensures Inv(Next(w, EnqueueFrame(frame, force), area), area)
  {
    if FrameAccepted(frame) && w.renderer.running {
      EnqueueKeepsQueue(w, frame, force, area);
      FramesGrow(w, Next(w, EnqueueFrame(frame, force), area), SourceOf(frame, force), area);
    }
  }

  lemma TakeKeeps(w: World, area: Area)
    requires Inv(w, area) && Enabled(w, TakeWaiting)
    ensures Inv(Next(w, TakeWaiting, area), area)
  {
    var v := Next(w, TakeWaiting, area);
    forall key | key in v.painter.bufferSequences ensures BufferSound(v, area, key) {
      assert BufferSound(w, area, key);
    }
    forall i, j | 0 <= i < j < |v.dequeued| ensures v.dequeued[i].sequence < v.dequeued[j].dirtySequenceStart {
      if j == |w.dequeued| { assert w.dequeued[i].sequence <= w.taken; }
    }
  }

  lemma TrimmedKeepsEntries(history: seq<HistoryEntry>, i: nat)
    requires i < |Trimmed(history)|
    ensures exists j: nat | j < |history| :: Trimmed(history)[i] == history[j]
  {
    var skip := |history| - |Trimmed(history)|;
    assert Trimmed(history)[i] == history[i + skip];
  }

  /** What a recorded entry is: an old one of the same size, or the frame's own. */
  lemma RecordedEntries(s: PainterState, key: nat, frame: PendingFrame, i: nat)
    requires frame.sequence != 0 && frame.dirtySequenceStart != 0 && i < |Recorded(s, key, frame).history|
    ensures var e := Recorded(s, key, frame).history[i];
            || e == HistoryEntry(frame.dirtySequenceStart, frame.sequence, frame.dirty)
            || (s.width == frame.width && s.height == frame.height && e in s.history)
  {
    var cleared := if s.width != frame.width || s.height != frame.height then [] else s.history;
    TrimmedKeepsEntries(cleared + [HistoryEntry(frame.dirtySequenceStart, frame.sequence, frame.dirty)], i);
  }

  /** A sequence missing before the frame stays missing after it is recorded. */
  lemma MissingForGood(s: PainterState, key: nat, frame: PendingFrame, m: nat)
    requires frame.sequence != 0 && Missing(s.history, m) && m < frame.dirtySequenceStart
    ensures Missing(Recorded(s, key, frame).history, m)
  {
    forall i | 0 <= i < |Recorded(s, key, frame).history|
      ensures var e := Recorded(s, key, frame).history[i]; !(e.fromSequence <= m <= e.toSequence)
    {
      RecordedEntries(s, key, frame, i);
    }
  }

  /** After a write, the written buffer shows the full picture of the frame whenever the flush succeeds. */
  lemma PaintShowsFull(w: World, area: Area, key: nat, outcome: WindowOutcome)
    requires Inv(w, area) && Enabled(w, Paint(key, outcome)) && !outcome.Refused?
    ensures SamePicture(Next(w, Paint(key, outcome), area).buffers(key),
                        FullPicture(w.flight.frame, area.width, area.height), area.width, area.height)
  {
    var frame := w.flight.frame;
    var viewport := FitFrameIntoTarget(area.width, area.height, frame.width, frame.height);
    if PartialDirty(w.painter, key, frame, area.width, area.height, viewport).Some? {
      PartialEqualsFull(w, area, key, viewport);
    }
  }

  lemma PaintKeepsHistory(w: World, area: Area, key: nat, outcome: WindowOutcome)
    requires Inv(w, area) && Enabled(w, Paint(key, outcome))
    ensures var v := Next(w, Paint(key, outcome), area); HistoryInv(v) && FlightInv(v)
  {
    var v := Next(w, Paint(key, outcome), area);
    var frame := w.flight.frame;
    if outcome.Flushed? {
      forall i | 0 <= i < |v.painter.history|
        ensures var e := v.painter.history[i];
                Summarises(v.frames, e.fromSequence, e.toSequence, v.painter.width, v.painter.height, e.dirty)
        ensures v.painter.history[i].toSequence <= v.taken
      {
        RecordedEntries(w.painter, key, frame, i);
        var e := v.painter.history[i];
        if e != HistoryEntry(frame.dirtySequenceStart, frame.sequence, frame.dirty) {
          var j :| 0 <= j < |w.painter.history| && w.painter.history[j] == e;
        }
      }
    }
  }

  lemma PaintKeepsBuffer(w: World, area: Area, key: nat, outcome: WindowOutcome, other: nat)
    requires Inv(w, area) && Enabled(w, Paint(key, outcome))
    requires other in Next(w, Paint(key, outcome), area).painter.bufferSequences
    ensures BufferSound(Next(w, Paint(key, outcome), area), area, other)
  {
    var v := Next(w, Paint(key, outcome), area);
    var frame := w.flight.frame;
    if outcome.Flushed? && other == key {
      PaintShowsFull(w, area, key, outcome);
    } else {
      assert BufferSound(w, area, other);
      var last := w.painter.bufferSequences[other];
      if outcome.FlushFailed? && other == key {
        assert last < frame.sequence && Missing(v.painter.history, frame.sequence);
      } else if !SamePicture(w.buffers(other), FullOf(At(w.frames, last), area), area.width, area.height) {
        var m: nat :| last < m <= w.taken && m < frame.dirtySequenceStart && Missing(w.painter.history, m);
        if outcome.Flushed? { MissingForGood(w.painter, key, frame, m); }
        assert Missing(v.painter.history, m);
      }
    }
  }

  lemma PaintKeeps(w: World, area: Area, key: nat, outcome: WindowOutcome)
    requires Inv(w, area) && Enabled(w, Paint(key, outcome))
    ensures Inv(Next(w, Paint(key, outcome), area), area)
  {
    var v := Next(w, Paint(key, outcome), area);
    PaintKeepsHistory(w, area, key, outcome);
    forall other | other in v.painter.bufferSequences ensures BufferSound(v, area, other) {
      PaintKeepsBuffer(w, area, key, outcome, other);
    }
  }

  lemma StepKeepsInv(w: World, step: Step, area: Area)
    requires Inv(w, area) && Enabled(w, step)
    ensures Inv(Next(w, step, area), area)
  {
    match step
    case EnqueueFrame(frame, force) => EnqueueKeeps(w, frame, force, area);
    case TakeWaiting => TakeKeeps(w, area);
    case Paint(key, outcome) => PaintKeeps(w, area, key, outcome);
    case _ =>
      var v := Next(w, step, area);
      forall key | key in v.painter.bufferSequences ensures BufferSound(v, area, key) {
        assert BufferSound(w, area, key);
      }
  }

  // ---- Runs ----

  ghost predicate IsRun(worlds: seq<World>, steps: seq<Step>, area: Area) {
    && |worlds| == |steps| + 1 && Fresh(worlds[0])
    && forall i: nat | i < |steps| :: Enabled(worlds[i], steps[i]) && worlds[i + 1] == Next(worlds[i], steps[i], area)
  }

  /** The painter holds a buffer that a frame of the painted area's size could be repainted into partially. */
  predicate Remembers(s: PainterState, area: Area) {
    s.width == area.width && s.height == area.height && s.bufferSequences != map[]
  }

  /** What painting leaves behind: buffer keys are addresses and never 0, and history comes with a buffer. */
  predicate LeftByPainting(s: PainterState) {
    && 0 !in s.bufferSequences && |s.history| <= DIRTY_HISTORY_LIMIT
    && (s.history != [] ==> s.bufferSequences != map[])
  }

  lemma RecordedIsLeftByPainting(s: PainterState, key: nat, frame: PendingFrame)
    requires LeftByPainting(s) && key != 0
    ensures LeftByPainting(Recorded(s, key, frame))
  {
    if frame.sequence != 0 {
      assert key in Recorded(s, key, frame).bufferSequences;
    }
  }

  lemma {:induction false} RunStaysLeftByPainting(worlds: seq<World>, steps: seq<Step>, area: Area, i: nat)
    requires IsRun(worlds, steps, area) && i < |worlds| && LeftByPainting(worlds[0].painter)
    ensures LeftByPainting(worlds[i].painter)
    decreases i
  {
    if i > 0 {
      RunStaysLeftByPainting(worlds, steps, area, i - 1);
      if steps[i - 1].Paint? {
        RecordedIsLeftByPainting(worlds[i - 1].painter, steps[i - 1].bufferKey, worlds[i - 1].flight.frame);
      }
    }
  }

  // ---- The painter, without what it cannot use ----

  /** History and buffers of another size than the painted area's are never consulted. */
  function Cleaned(s: PainterState, area: Area): PainterState {
    if s.width == area.width && s.height == area.height then s else PainterState(map[], [], s.width, s.height)
  }

  function CleanedWorld(w: World, area: Area): World { w.(painter := Cleaned(w.painter, area)) }

  lemma CleanedRecords(s: PainterState, area: Area, key: nat, frame: PendingFrame)
    ensures Cleaned(Recorded(s, key, frame), area) == Cleaned(Recorded(Cleaned(s, area), key, frame), area)
  {
  }

  lemma CleanedDirty(s: PainterState, area: Area, key: nat, frame: PendingFrame, viewport: RenderViewport)
    ensures PartialDirty(s, key, frame, area.width, area.height, viewport) ==
            PartialDirty(Cleaned(s, area), key, frame, area.width, area.height, viewport)
  {
  }

  lemma CleanedNext(w: World, step: Step, area: Area)
    requires Enabled(w, step)
    ensures Enabled(CleanedWorld(w, area), step)
    ensures CleanedWorld(Next(w, step, area), area) == CleanedWorld(Next(CleanedWorld(w, area), step, area), area)
  {
    if step.Paint? {
      var frame := w.flight.frame;
      var viewport := FitFrameIntoTarget(area.width, area.height, frame.width, frame.height);
      CleanedRecords(w.painter, area, step.bufferKey, frame);
      CleanedDirty(w.painter, area, step.bufferKey, frame, viewport);
    }
  }

  lemma CleaningKeepsInv(w: World, area: Area)
    requires Inv(w, area)
    ensures Inv(CleanedWorld(w, area), area)
  {
    var v := CleanedWorld(w, area);
    forall key | key in v.painter.bufferSequences ensures BufferSound(v, area, key) {
      assert BufferSound(w, area, key);
    }
  }

  lemma FreshInv(w: World, area: Area)
    requires Fresh(w) && LeftByPainting(w.painter) && !Remembers(w.painter, area)
    ensures Inv(CleanedWorld(w, area), area)
  {
  }

  lemma {:induction false} RunKeepsInv(worlds: seq<World>, steps: seq<Step>, area: Area, i: nat)
    requires IsRun(worlds, steps, area) && i < |worlds|
    requires LeftByPainting(worlds[0].painter) && !Remembers(worlds[0].painter, area)
    ensures Inv(CleanedWorld(worlds[i], area), area)
    decreases i
  {
    if i == 0 {
      FreshInv(worlds[0], area);
    } else {
      RunKeepsInv(worlds, steps, area, i - 1);
      CleanedNext(worlds[i - 1], steps[i - 1], area);
      StepKeepsInv(CleanedWorld(worlds[i - 1], area), steps[i - 1], area);
      CleaningKeepsInv(Next(CleanedWorld(worlds[i - 1], area), steps[i - 1], area), area);
    }
  }

  /** The step at i paints a frame and its flush succeeds. */
  predicate Flushes(steps: seq<Step>, i: nat)
    requires i < |steps|
  {
    steps[i].Paint? && steps[i].outcome.Flushed?
  }

  /** The buffer painted by a step shows the full repaint of the frame. */
  ghost predicate ShowsFull(before: World, step: Step, after: World, area: Area)
    requires Enabled(before, step) && step.Paint?
  {
    SamePicture(after.buffers(step.bufferKey), FullPicture(before.flight.frame, area.width, area.height),
                area.width, area.height)
  }

  /** The main result: at every step of every run that starts with a painter remembering no buffer of the painted
      size, a frame that is painted and flushed leaves its buffer equal to a full repaint of the frame, whether the
      painter repainted all of it or only a box. */
  lemma EveryRepaintIsAFullRepaint(worlds: seq<World>, steps: seq<Step>, area: Area, i: nat)
    requires IsRun(worlds, steps, area) && i < |steps| && Flushes(steps, i)
    requires LeftByPainting(worlds[0].painter) && !Remembers(worlds[0].painter, area)
    ensures worlds[i + 1].flight.Painted? && worlds[i + 1].flight.ok
    ensures worlds[i].flight.Rendering? && ShowsFull(worlds[i], steps[i], worlds[i + 1], area)
  {
    var w, step := CleanedWorld(worlds[i], area), steps[i];
    RunKeepsInv(worlds, steps, area, i);
    CleanedNext(worlds[i], step, area);
    PaintShowsFull(w, area, step.bufferKey, step.outcome);
    assert worlds[i + 1].buffers == Next(w, step, area).buffers by {
      assert CleanedWorld(worlds[i + 1], area) == CleanedWorld(Next(w, step, area), area);
    }
  }

  // ---- The queue, whatever the painter does ----

  ghost predicate QueueAccounted(w: World) {
    && QueueInv(w) && CountersInv(w) && DequeuedInv(w)
    && (!w.flight.Idle? ==> Describes(w.frames, w.flight.frame) && w.flight.frame.sequence == w.taken)
  }

  lemma EnqueueKeepsAccounts(w: World, frame: RgbaFrame, force: bool, area: Area)
    requires QueueAccounted(w) && Enabled(w, EnqueueFrame(frame, force))
    ensures QueueAccounted(Next(w, EnqueueFrame(frame, force), area))
  {
    if FrameAccepted(frame) && w.renderer.running {
      var v, more := Next(w, EnqueueFrame(frame, force), area), SourceOf(frame, force);
      EnqueueKeepsQueue(w, frame, force, area);
      if !w.flight.Idle? { DescribesGrows(w.frames, more, w.flight.frame); }
      forall i | 0 <= i < |w.dequeued| ensures Describes(v.frames, v.dequeued[i]) {
        DescribesGrows(w.frames, more, w.dequeued[i]);
      }
    }
  }

  lemma StepKeepsAccounts(w: World, step: Step, area: Area)
    requires QueueAccounted(w) && Enabled(w, step)
    ensures QueueAccounted(Next(w, step, area))
  {
    var v := Next(w, step, area);
    if step.EnqueueFrame? {
      EnqueueKeepsAccounts(w, step.frame, step.force, area);
    } else if step.TakeWaiting? {
      forall i, j | 0 <= i < j < |v.dequeued| ensures v.dequeued[i].sequence < v.dequeued[j].dirtySequenceStart {
        if j == |w.dequeued| { assert w.dequeued[i].sequence <= w.taken; }
      }
    }
  }

  lemma {:induction false} RunKeepsAccounts(worlds: seq<World>, steps: seq<Step>, area: Area, i: nat)
    requires IsRun(worlds, steps, area) && i < |worlds|
    ensures QueueAccounted(worlds[i])
    decreases i
  {
    if i > 0 {
      RunKeepsAccounts(worlds, steps, area, i - 1);
      StepKeepsAccounts(worlds[i - 1], steps[i - 1], area);
    }
  }

  /** The worker takes increasing, disjoint intervals of sequences, each covered by its frame's box, and
      nothing queued is lost track of. */
  lemma QueueRunIsAccounted(worlds: seq<World>, steps: seq<Step>, area: Area, i: nat)
    requires IsRun(worlds, steps, area) && i < |worlds|
    ensures var w := worlds[i];
            && DequeuedInv(w) && CountersInv(w)
            && (w.renderer.hasPending ==>
                  && Describes(w.frames, w.renderer.pending)
                  && w.renderer.pending.forceRender == AnyForced(w.frames, w.groupStart))
  {
    RunKeepsAccounts(worlds, steps, area, i);
  }
}
