/** Starting the render thread again without destroying the painter (surface/latest_frame_renderer.cpp,
    surface/native_window_rgba_painter.cpp): Start resets the sequence to 0, and only Destroy clears the painter.
    Every repaint of every run is a full repaint exactly when the painter remembers no buffer of the painted size. */
module RepaintRestart {
  import opened FrameUtils
  import opened RemoteContentGeometry
  import opened NativeRgbaCopy
  import opened LatestFrameRenderer
  import opened NativeWindowPainter
  import opened RepaintRun

  /** Whatever is queued and whatever goes wrong from here on, every flushed paint is a full repaint. */
  ghost predicate EveryRunPaintsFully(start: World, area: Area) {
    forall worlds: seq<World>, steps: seq<Step>, i: nat |
      IsRun(worlds, steps, area) && worlds[0] == start && i < |steps| && Flushes(steps, i) ::
      ShowsFull(worlds[i], steps[i], worlds[i + 1], area)
  }

  // ---- The run that goes wrong: one small box again and again, painted elsewhere ----

  const RED := Pixel(255, 0, 0, 255)

  /** A colour other than the given one. */
  function Other(p: Pixel): Pixel { if p == LETTERBOX then RED else LETTERBOX }

  function Flat(p: Pixel): Picture { (x: nat, y: nat) => p }

  /** A box of one pixel in the top left corner. */
  function Dot(area: Area): DirtyFrameStats {
    DirtyFrameStats(true, 1, 0, 0, 1, 1, BoxPermille(1, 1, area.width, area.height))
  }

  function DotFrame(area: Area, p: Pixel): RgbaFrame {
    RgbaFrame(true, area.width, area.height, 0, Flat(p), Dot(area))
  }

  function Queued(area: Area, p: Pixel, n: nat): PendingFrame {
    PendingFrame(area.width, area.height, false, Dot(area), n, n, Flat(p))
  }

  predicate IsDot(dirty: DirtyFrameStats, area: Area) {
    && dirty.valid && dirty.x == 0 && dirty.y == 0 && dirty.width == 1 && dirty.height == 1
    && dirty.areaPermille == BoxPermille(1, 1, area.width, area.height)
  }

  lemma CornerIsNotTheDot(width: nat, height: nat)
    requires 2 <= width * height
    ensures width - 1 != 0 || height - 1 != 0
  {
  }

  lemma SmallQuotient(cut: nat, n: nat)
    requires 0 < n && cut < 502 * n
    ensures cut / n % U32_LIMIT <= MAX_PARTIAL_DIRTY_AREA_PERMILLE
  {
    QuotientBelow(cut, n, 502);
    CutBelow(cut / n, U32_LIMIT, 502);
  }

  /** One pixel of at least two is about 500 permille. */
  lemma HalfIsSmall(n: nat, half: nat)
    requires 2 <= n && half <= n
    ensures (1000 + half) % U64_LIMIT / n % U32_LIMIT <= MAX_PARTIAL_DIRTY_AREA_PERMILLE
  {
    CutBelow(1000 + half, U64_LIMIT, 502 * n);
    SmallQuotient((1000 + half) % U64_LIMIT, n);
  }

  lemma DotIsSmall(area: Area)
    requires 2 <= area.width * area.height
    ensures BoxPermille(1, 1, area.width, area.height) <= MAX_PARTIAL_DIRTY_AREA_PERMILLE
  {
    var n := area.width * area.height;
    HalfIsSmall(n, n / 2);
  }

  lemma MergedDots(a: DirtyFrameStats, b: DirtyFrameStats, area: Area)
    requires (!a.valid || IsDot(a, area)) && IsDot(b, area) && 0 < area.width && 0 < area.height
    ensures IsDot(MergeDirtyStats(a, b, area.width, area.height), area)
  {
  }

  /** The entries that recording the first n frames one by one leaves. */
  function Entries(area: Area, n: nat): (h: seq<HistoryEntry>)
    ensures |h| == n && forall j: nat | j < n :: h[j] == HistoryEntry(j + 1, j + 1, Dot(area))
  {
    seq(n, (j: nat) => HistoryEntry(j + 1, j + 1, Dot(area)))
  }

  lemma TrimmedTwice(h: seq<HistoryEntry>, e: HistoryEntry)
    ensures Trimmed(Trimmed(h) + [e]) == Trimmed(h + [e])
  {
  }

  lemma OneMoreEntry(h: seq<HistoryEntry>, area: Area, n: nat)
    ensures Trimmed(Trimmed(h + Entries(area, n)) + [HistoryEntry(n + 1, n + 1, Dot(area))]) ==
            Trimmed(h + Entries(area, n + 1))
  {
    TrimmedTwice(h + Entries(area, n), HistoryEntry(n + 1, n + 1, Dot(area)));
    assert h + Entries(area, n) + [HistoryEntry(n + 1, n + 1, Dot(area))] == h + Entries(area, n + 1);
  }

  /** After n frames, all alike and painted into other buffers: buffer `key` is as remembered and as filled at the
      start, and the history ends with the n entries. */
  ghost predicate Looping(w: World, start: World, area: Area, p: Pixel, key: nat, n: nat) {
    && w.renderer.running && !w.renderer.hasPending && w.renderer.frameSequence == n == |w.frames| && w.flight.Idle?
    && (n > 0 ==> w.frames[n - 1] == SourceOf(DotFrame(area, p), false))
    && w.painter.width == area.width && w.painter.height == area.height
    && key in w.painter.bufferSequences && key in start.painter.bufferSequences
    && w.painter.bufferSequences[key] == start.painter.bufferSequences[key]
    && w.painter.history == Trimmed(start.painter.history + Entries(area, n))
    && w.buffers(key) == start.buffers(key)
  }

  lemma Extended(worlds: seq<World>, steps: seq<Step>, area: Area, step: Step) returns (next: World)
    requires IsRun(worlds, steps, area) && Enabled(worlds[|steps|], step)
    ensures next == Next(worlds[|steps|], step, area) && IsRun(worlds + [next], steps + [step], area)
  {
    next := Next(worlds[|steps|], step, area);
  }

  lemma QueuedAndTaken(worlds: seq<World>, steps: seq<Step>, start: World, area: Area, p: Pixel, key: nat, n: nat)
    returns (worlds': seq<World>, steps': seq<Step>)
    requires IsRun(worlds, steps, area) && Looping(worlds[|steps|], start, area, p, key, n)
    requires 0 < area.width && 0 < area.height
    ensures IsRun(worlds', steps', area) && worlds'[0] == worlds[0]
    ensures var w, v := worlds[|steps|], worlds'[|steps'|];
            && v.flight == Rendering(Queued(area, p, n + 1)) && v.painter == w.painter && v.buffers == w.buffers
            && v.renderer.running && !v.renderer.hasPending && v.renderer.frameSequence == n + 1 == |v.frames|
            && v.frames[n] == SourceOf(DotFrame(area, p), false)
  {
    var frame := EnqueueFrame(DotFrame(area, p), false);
    var w1 := Extended(worlds, steps, area, frame);
    var w2 := Extended(worlds + [w1], steps + [frame], area, TakeWaiting);
    worlds', steps' := worlds + [w1] + [w2], steps + [frame] + [TakeWaiting];
  }

  /** One more frame, painted into the buffer next to `key`. */
  lemma Cycle(worlds: seq<World>, steps: seq<Step>, start: World, area: Area, p: Pixel, key: nat, n: nat)
    returns (worlds': seq<World>, steps': seq<Step>)
    requires IsRun(worlds, steps, area) && Looping(worlds[|steps|], start, area, p, key, n)
    requires 0 < area.width && 0 < area.height
    ensures IsRun(worlds', steps', area) && worlds'[0] == worlds[0]
    ensures Looping(worlds'[|steps'|], start, area, p, key, n + 1)
  {
    worlds', steps' := QueuedAndTaken(worlds, steps, start, area, p, key, n);
    var paint := Paint(key + 1, Flushed);
    var w3 := Extended(worlds', steps', area, paint);
    OneMoreEntry(start.painter.history, area, n);
    worlds', steps' := worlds' + [w3], steps' + [paint];
    var w4 := Extended(worlds', steps', area, Finish);
    worlds', steps' := worlds' + [w4], steps' + [Finish];
  }

  lemma {:induction false} Loop(start: World, area: Area, p: Pixel, key: nat, n: nat)
    returns (worlds: seq<World>, steps: seq<Step>)
    requires Fresh(start) && LeftByPainting(start.painter) && Remembers(start.painter, area)
    requires 0 < area.width && 0 < area.height && key in start.painter.bufferSequences
    ensures IsRun(worlds, steps, area) && worlds[0] == start
    ensures Looping(worlds[|steps|], start, area, p, key, n)
  {
    if n == 0 {
      worlds, steps := [start], [];
      assert start.painter.history + Entries(area, 0) == start.painter.history;
    } else {
      worlds, steps := Loop(start, area, p, key, n - 1);
      worlds, steps := Cycle(worlds, steps, start, area, p, key, n - 1);
    }
  }

  // ---- The chain check passes on the new entries ----

  predicate ChainOfDots(chain: Chain, area: Area) { chain.dirty == NO_DIRTY || IsDot(chain.dirty, area) }

  lemma {:induction false} WalkOverEntries(h: seq<HistoryEntry>, first: nat, last: nat, chain: Chain, area: Area)
    requires 0 < area.width && 0 < area.height && ChainOfDots(chain, area)
    requires forall j: nat | j < |h| :: h[j] == HistoryEntry(first + j, first + j, Dot(area))
    requires chain.expected == if first <= last then last + 1 else first
    ensures var r := Walk(h, last, chain, area.width, area.height);
            && r.Some? && ChainOfDots(r.value, area)
            && r.value.expected == if first + |h| <= last then last + 1 else first + |h|
  {
    if h != [] {
      assert h[0] == HistoryEntry(first, first, Dot(area));
      assert forall j: nat | j < |h[1..]| :: h[1..][j] == HistoryEntry(first + 1 + j, first + 1 + j, Dot(area));
      if first <= last {
        WalkOverEntries(h[1..], first + 1, last, chain, area);
      } else {
        MergedDots(chain.dirty, Dot(area), area);
        var merged := MergeDirtyStats(chain.dirty, h[0].dirty, area.width, area.height);
        WalkOverEntries(h[1..], first + 1, last, Chain(first + 1, merged), area);
      }
    }
  }

  lemma PartialAgain(s: PainterState, area: Area, p: Pixel, key: nat, n: nat, before: seq<HistoryEntry>)
    requires 2 <= area.width * area.height && 0 < area.width && 0 < area.height
    requires s.width == area.width && s.height == area.height && key != 0 && key in s.bufferSequences
    requires |before| <= DIRTY_HISTORY_LIMIT <= n && s.history == Trimmed(before + Entries(area, n))
    requires s.bufferSequences[key] <= n <= s.bufferSequences[key] + DIRTY_HISTORY_LIMIT
    ensures var viewport := FitFrameIntoTarget(area.width, area.height, area.width, area.height);
            var r := PartialDirty(s, key, Queued(area, p, n + 1), area.width, area.height, viewport);
            r.Some? && IsDot(r.value, area)
  {
    var last, skip := s.bufferSequences[key], n - DIRTY_HISTORY_LIMIT;
    assert s.history == Entries(area, n)[skip..];
    WalkStart(s.history, skip + 1, last, area);
    var chain := Walk(s.history, last, Chain(last + 1, NO_DIRTY), area.width, area.height).value;
    MergedDots(chain.dirty, Dot(area), area);
    DotIsSmall(area);
    EqualSizesAreOneToOne(area.width, area.height);
  }

  lemma WalkStart(h: seq<HistoryEntry>, first: nat, last: nat, area: Area)
    requires 0 < area.width && 0 < area.height && 1 <= first <= last + 1
    requires forall j: nat | j < |h| :: h[j] == HistoryEntry(first + j, first + j, Dot(area))
    ensures var r := Walk(h, last, Chain(last + 1, NO_DIRTY), area.width, area.height);
            && r.Some? && ChainOfDots(r.value, area)
            && r.value.expected == if first + |h| <= last then last + 1 else first + |h|
  {
    WalkOverEntries(h, first, last, Chain(last + 1, NO_DIRTY), area);
  }

  // ---- The two directions ----

  /** With a remembered buffer there is a run whose last step is a flushed paint that is no full repaint. */
  lemma BadRun(start: World, area: Area) returns (worlds: seq<World>, steps: seq<Step>)
    requires Fresh(start) && LeftByPainting(start.painter) && Remembers(start.painter, area)
    requires 2 <= area.width * area.height
    ensures IsRun(worlds, steps, area) && worlds[0] == start && steps != []
    ensures var i := |steps| - 1;
            Flushes(steps, i) && !ShowsFull(worlds[i], steps[i], worlds[i + 1], area)
  {
    var key :| key in start.painter.bufferSequences;
    var last := start.painter.bufferSequences[key];
    var n := if last < DIRTY_HISTORY_LIMIT then DIRTY_HISTORY_LIMIT else last;
    var x, y := area.width - 1, area.height - 1;
    var p := Other(start.buffers(key)(x, y));
    worlds, steps := Loop(start, area, p, key, n);
    var w := worlds[|steps|];
    worlds, steps := QueuedAndTaken(worlds, steps, start, area, p, key, n);
    PartialAgain(w.painter, area, p, key, n, start.painter.history);
    var before := worlds[|steps|];
    var frame := Queued(area, p, n + 1);
    FullPictureIsPixels(frame, area, x, y);
    CornerIsNotTheDot(area.width, area.height);
    var paint := Paint(key, Flushed);
    var after := Extended(worlds, steps, area, paint);
    assert after.buffers(key)(x, y) == before.buffers(key)(x, y) == start.buffers(key)(x, y);
    worlds, steps := worlds + [after], steps + [paint];
  }

  /** Every flushed paint of every run from a started render thread is a full repaint if and only if its painter
      remembers no buffer of the size being painted; the area must have a pixel outside some box of at most 650
      permille, which it has from two pixels on. A caller can see that before Start: it is what Destroy makes true. */
  lemma RestartIsSoundExactlyWhen(start: World, area: Area)
    requires Fresh(start) && LeftByPainting(start.painter) && 2 <= area.width * area.height
    ensures EveryRunPaintsFully(start, area) <==> !Remembers(start.painter, area)
  {
    if Remembers(start.painter, area) {
      var worlds, steps := BadRun(start, area);
      assert !ShowsFull(worlds[|steps| - 1], steps[|steps| - 1], worlds[|steps|], area);
    } else {
      forall worlds: seq<World>, steps: seq<Step>, i: nat |
        IsRun(worlds, steps, area) && worlds[0] == start && i < |steps| && Flushes(steps, i)
        ensures ShowsFull(worlds[i], steps[i], worlds[i + 1], area)
      {
        EveryRepaintIsAFullRepaint(worlds, steps, area, i);
      }
    }
  }

  /** Stopping at any point of a run and starting again without Destroy in between. */
  lemma RestartAfterARun(worlds: seq<World>, steps: seq<Step>, area: Area, i: nat)
    requires IsRun(worlds, steps, area) && i < |worlds| && LeftByPainting(worlds[0].painter)
    requires 2 <= area.width * area.height
    ensures var w := worlds[i];
            var again := Begun(Stopped(w.renderer), w.painter, w.buffers);
            EveryRunPaintsFully(again, area) <==> !Remembers(w.painter, area)
  {
    RunStaysLeftByPainting(worlds, steps, area, i);
    var w := worlds[i];
    BegunIsFresh(Stopped(w.renderer), w.painter, w.buffers);
    RestartIsSoundExactlyWhen(Begun(Stopped(w.renderer), w.painter, w.buffers), area);
  }

  /** One flushed frame of the area's size is enough: a run from an empty painter paints it, and a second Start
      after it, without Destroy, has a run with a repaint that is not full. */
  lemma RestartWithoutClearingIsUnsound(area: Area, buffers: nat -> Picture)
    returns (worlds: seq<World>, steps: seq<Step>)
    requires 2 <= area.width * area.height
    ensures IsRun(worlds, steps, area) && worlds[0].painter == EMPTY_PAINTER && worlds[0].buffers == buffers
    ensures var w := worlds[|steps|];
            !EveryRunPaintsFully(Begun(Stopped(w.renderer), w.painter, w.buffers), area)
  {
    var start := Begun(RendererState(false, false, NO_FRAME, 0, ZERO_COUNTERS), EMPTY_PAINTER, buffers);
    var frame, paint := EnqueueFrame(DotFrame(area, RED), false), Paint(1, Flushed);
    worlds, steps := [start], [];
    var w1 := Extended(worlds, steps, area, frame);
    worlds, steps := worlds + [w1], steps + [frame];
    var w2 := Extended(worlds, steps, area, TakeWaiting);
    worlds, steps := worlds + [w2], steps + [TakeWaiting];
    var w3 := Extended(worlds, steps, area, paint);
    worlds, steps := worlds + [w3], steps + [paint];
    assert 1 in w3.painter.bufferSequences && Remembers(w3.painter, area);
    RestartAfterARun(worlds, steps, area, |steps|);
  }
}
