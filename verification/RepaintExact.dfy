/** What the damage-tracked repaint does exactly, over the runs of RepaintRun: which box a frame carries when the
    worker takes it, when a repaint is partial, and what the counters count (surface/latest_frame_renderer.cpp,
    surface/native_window_rgba_painter.cpp). */
module RepaintExact {
  import opened FrameUtils
  import opened RemoteContentGeometry
  import opened NativeRgbaCopy
  import opened LatestFrameRenderer
  import opened NativeWindowPainter
  import opened RepaintRun

  // ---- The box of a coalesced frame ----

  function BoxesOf(sources: seq<Source>): (boxes: seq<DirtyFrameStats>)
    ensures |boxes| == |sources| && forall i | 0 <= i < |boxes| :: boxes[i] == sources[i].dirty
  {
    seq(|sources|, (i: nat) requires i < |sources| => sources[i].dirty)
  }

  /** The frame's box is the merge, in order, of the boxes of every frame coalesced into it. */
  ghost predicate BoxIsTheMerge(frames: seq<Source>, frame: PendingFrame) {
    && 1 <= frame.dirtySequenceStart <= frame.sequence <= |frames|
    && frame.dirty == MergeAll(BoxesOf(frames[frame.dirtySequenceStart - 1..frame.sequence]), frame.width, frame.height)
  }

  ghost predicate BoxesInv(w: World) {
    && (w.renderer.hasPending ==> BoxIsTheMerge(w.frames, w.renderer.pending))
    && (!w.flight.Idle? ==> BoxIsTheMerge(w.frames, w.flight.frame))
  }

  lemma MergeOfOneMore(frames: seq<Source>, more: Source, from: nat, width: U32, height: U32)
    requires 1 <= from <= |frames| + 1
    ensures MergeAll(BoxesOf((frames + [more])[from - 1..|frames| + 1]), width, height) ==
            MergeDirtyStats(MergeAll(BoxesOf(frames[from - 1..]), width, height), more.dirty, width, height)
  {
    var boxes := BoxesOf((frames + [more])[from - 1..|frames| + 1]);
    assert boxes[..|boxes| - 1] == BoxesOf(frames[from - 1..]);
  }

  lemma BoxStaysTheMerge(frames: seq<Source>, more: Source, frame: PendingFrame)
    requires BoxIsTheMerge(frames, frame)
    ensures BoxIsTheMerge(frames + [more], frame)
  {
    assert (frames + [more])[frame.dirtySequenceStart - 1..frame.sequence] ==
           frames[frame.dirtySequenceStart - 1..frame.sequence];
  }

  lemma NewestIsTheMerge(frames: seq<Source>, more: Source, frame: PendingFrame)
    requires frame.dirtySequenceStart == frame.sequence == |frames| + 1 && frame.dirty == more.dirty
    ensures BoxIsTheMerge(frames + [more], frame)
  {
    MergeOfOneMore(frames, more, |frames| + 1, frame.width, frame.height);
    assert BoxesOf(frames[|frames|..]) == [];
  }

  lemma CoalescedIsTheMerge(frames: seq<Source>, waiting: PendingFrame, next: PendingFrame, more: Source)
    requires BoxIsTheMerge(frames, waiting) && waiting.sequence == |frames|
    requires next.sequence == next.dirtySequenceStart == |frames| + 1 && next.dirty == more.dirty
    ensures BoxIsTheMerge(frames + [more], Coalesced(waiting, next))
  {
    if waiting.width == next.width && waiting.height == next.height {
      MergeOfOneMore(frames, more, waiting.dirtySequenceStart, next.width, next.height);
      assert frames[waiting.dirtySequenceStart - 1..] == frames[waiting.dirtySequenceStart - 1..waiting.sequence];
    } else {
      NewestIsTheMerge(frames, more, Coalesced(waiting, next));
    }
  }

  lemma EnqueueKeepsBoxes(w: World, frame: RgbaFrame, force: bool, area: Area)
    requires QueueInv(w) && BoxesInv(w) && FrameAccepted(frame) && w.renderer.running
    requires Enabled(w, EnqueueFrame(frame, force))
    ensures BoxesInv(Next(w, EnqueueFrame(frame, force), area))
  {
    var more, sequence := SourceOf(frame, force), |w.frames| + 1;
    var next := PendingFrame(frame.width, frame.height, force, frame.dirty, sequence, sequence, frame.pixels);
    if !w.flight.Idle? {
      BoxStaysTheMerge(w.frames, more, w.flight.frame);
    }
    if w.renderer.hasPending {
      CoalescedIsTheMerge(w.frames, w.renderer.pending, next, more);
    } else {
      NewestIsTheMerge(w.frames, more, next);
    }
  }

  lemma StepKeepsBoxes(w: World, step: Step, area: Area)
    requires QueueInv(w) && BoxesInv(w) && Enabled(w, step)
    ensures BoxesInv(Next(w, step, area))
  {
    if step.EnqueueFrame? && FrameAccepted(step.frame) && w.renderer.running {
      EnqueueKeepsBoxes(w, step.frame, step.force, area);
    }
  }

  lemma {:induction false} RunKeepsBoxes(worlds: seq<World>, steps: seq<Step>, area: Area, i: nat)
    requires IsRun(worlds, steps, area) && i < |worlds|
    ensures BoxesInv(worlds[i])
    decreases i
  {
    if i > 0 {
      RunKeepsBoxes(worlds, steps, area, i - 1);
      RunKeepsAccounts(worlds, steps, area, i - 1);
      StepKeepsBoxes(worlds[i - 1], steps[i - 1], area);
    }
  }

  /** In every run, the frame the worker has taken, and the one that waits, carry exactly the merge of the boxes of
      all frames coalesced into them: nothing missing and nothing more. */
  lemma CoalescedBoxIsTheMerge(worlds: seq<World>, steps: seq<Step>, area: Area, i: nat)
    requires IsRun(worlds, steps, area) && i < |worlds|
    ensures worlds[i].renderer.hasPending ==> BoxIsTheMerge(worlds[i].frames, worlds[i].renderer.pending)
    ensures !worlds[i].flight.Idle? ==> BoxIsTheMerge(worlds[i].frames, worlds[i].flight.frame)
  {
    RunKeepsBoxes(worlds, steps, area, i);
  }

  // ---- When a repaint is partial ----

  predicate AllNoWrap(boxes: seq<DirtyFrameStats>) { forall i | 0 <= i < |boxes| :: NoWrap(boxes[i]) }

  lemma {:induction false} MergeAllNoWrap(boxes: seq<DirtyFrameStats>, width: U32, height: U32)
    requires AllNoWrap(boxes)
    ensures NoWrap(MergeAll(boxes, width, height))
  {
    if boxes != [] {
      MergeAllNoWrap(boxes[..|boxes| - 1], width, height);
    }
  }

  lemma TakenFrameNoWrap(frames: seq<Source>, frame: PendingFrame)
    requires AllHonest(frames) && BoxIsTheMerge(frames, frame)
    ensures NoWrap(frame.dirty)
  {
    var from, to := frame.dirtySequenceStart - 1, frame.sequence;
    forall i | 0 <= i < to - from ensures NoWrap(BoxesOf(frames[from..to])[i]) {
      assert HonestAfter(frames[..from + i], frames[from + i]);
    }
    MergeAllNoWrap(BoxesOf(frames[from..to]), frame.width, frame.height);
  }

  ghost predicate HistoryIsInOrder(w: World) {
    Ordered(w.painter.history) && forall i | 0 <= i < |w.painter.history| :: NoWrap(w.painter.history[i].dirty)
  }

  lemma TrimmedStaysInOrder(history: seq<HistoryEntry>)
    requires Ordered(history)
    ensures Ordered(Trimmed(history))
  {
  }

  lemma RecordedStaysInOrder(s: PainterState, key: nat, frame: PendingFrame, area: Area)
    requires 1 <= frame.dirtySequenceStart <= frame.sequence && NoWrap(frame.dirty)
    requires Ordered(Cleaned(s, area).history) && EndsBefore(Cleaned(s, area).history, frame.dirtySequenceStart)
    requires forall i | 0 <= i < |Cleaned(s, area).history| :: NoWrap(Cleaned(s, area).history[i].dirty)
    ensures var h := Cleaned(Recorded(s, key, frame), area).history;
            Ordered(h) && forall i | 0 <= i < |h| :: NoWrap(h[i].dirty)
  {
    var h := Cleaned(Recorded(s, key, frame), area).history;
    if h != [] {
      var before := if s.width == frame.width && s.height == frame.height then s.history else [];
      var entry := HistoryEntry(frame.dirtySequenceStart, frame.sequence, frame.dirty);
      assert h == Trimmed(before + [entry]);
      TrimmedStaysInOrder(before + [entry]);
    }
  }

  lemma {:induction false} RunKeepsHistoryInOrder(worlds: seq<World>, steps: seq<Step>, area: Area, i: nat)
    requires IsRun(worlds, steps, area) && i < |worlds|
    requires LeftByPainting(worlds[0].painter) && !Remembers(worlds[0].painter, area)
    ensures HistoryIsInOrder(CleanedWorld(worlds[i], area))
    decreases i
  {
    if i > 0 {
      RunKeepsHistoryInOrder(worlds, steps, area, i - 1);
      var w, step := worlds[i - 1], steps[i - 1];
      if step.Paint? && step.outcome.Flushed? {
        RunKeepsInv(worlds, steps, area, i - 1);
        RunKeepsBoxes(worlds, steps, area, i - 1);
        TakenFrameNoWrap(w.frames, w.flight.frame);
        RecordedStaysInOrder(w.painter, step.bufferKey, w.flight.frame, area);
      }
    }
  }

  /** In every run that starts with a painter remembering no buffer of the painted size, a frame is repainted partially
      exactly when frame, area and painter have one size, the buffer holds a remembered frame, no sequence between
      that frame and this one is missing from the history, and the merged box of all changes since lies inside the
      area and is at most 650 permille of it. */
  lemma RepaintIsPartialExactlyWhen(worlds: seq<World>, steps: seq<Step>, area: Area, i: nat)
    requires IsRun(worlds, steps, area) && i < |steps| && steps[i].Paint? && !steps[i].outcome.Refused?
    requires LeftByPainting(worlds[0].painter) && !Remembers(worlds[0].painter, area)
    requires 0 < area.width && 0 < area.height
    ensures var s, frame, key := Cleaned(worlds[i].painter, area), worlds[i].flight.frame, steps[i].bufferKey;
            worlds[i + 1].flight.partial <==>
              && frame.dirty.valid && frame.width == area.width == s.width && frame.height == area.height == s.height
              && key in s.bufferSequences
              && var last := s.bufferSequences[key];
                 && Unbroken(s.history, last + 1, frame.dirtySequenceStart)
                 && IsSmallInside(MergeAll(LaterBoxes(s.history, last) + [frame.dirty], area.width, area.height),
                                  area.width, area.height)
  {
    var w, key := CleanedWorld(worlds[i], area), steps[i].bufferKey;
    RunKeepsInv(worlds, steps, area, i);
    RunKeepsBoxes(worlds, steps, area, i);
    RunKeepsHistoryInOrder(worlds, steps, area, i);
    var frame := worlds[i].flight.frame;
    TakenFrameNoWrap(w.frames, frame);
    var viewport := FitFrameIntoTarget(area.width, area.height, frame.width, frame.height);
    CleanedDirty(worlds[i].painter, area, key, frame, viewport);
    if key in w.painter.bufferSequences { assert BufferSound(w, area, key); }
    PartialExactlyWhen(w.painter, key, frame, area.width, area.height);
  }

  // ---- What the counters count ----

  /** What a step adds to the counters, by what happens in it. */
  function Happens(w: World, step: Step): Counters {
    match step
    case EnqueueFrame(frame, _) =>
      if FrameAccepted(frame) && w.renderer.running
      then Counters(1, 0, 0, if w.renderer.hasPending then 1 else 0, 0, 0) else Counters(0, 0, 0, 0, 0, 0)
    case DropWaiting => Counters(0, 0, 0, if w.renderer.hasPending then 1 else 0, 0, 0)
    case Finish =>
      if !w.flight.Painted? || !w.flight.ok then Counters(0, 0, 1, 0, 0, 0)
      else if w.flight.partial then Counters(0, 1, 0, 0, 0, 1) else Counters(0, 1, 0, 0, 1, 0)
    case _ => Counters(0, 0, 0, 0, 0, 0)
  }

  function Plus(a: Counters, b: Counters): Counters {
    Counters(a.queued + b.queued, a.rendered + b.rendered, a.failed + b.failed, a.replaced + b.replaced,
             a.full + b.full, a.partial + b.partial)
  }

  function Tally(worlds: seq<World>, steps: seq<Step>, n: nat): Counters
    requires n <= |steps| < |worlds|
  {
    if n == 0 then Counters(0, 0, 0, 0, 0, 0)
    else Plus(Tally(worlds, steps, n - 1), Happens(worlds[n - 1], steps[n - 1]))
  }

  lemma StepCounts(w: World, step: Step, area: Area)
    requires Enabled(w, step)
    ensures Next(w, step, area).renderer.counters == Plus(w.renderer.counters, Happens(w, step))
  {
  }

  /** In every run: queued counts the accepted frames, replaced the accepted frames that found one waiting and the
      drops that did, rendered, full and partial the painted and flushed frames, failed the others. */
  lemma {:induction false} CountersCountSteps(worlds: seq<World>, steps: seq<Step>, area: Area, n: nat)
    requires IsRun(worlds, steps, area) && n <= |steps|
    ensures worlds[n].renderer.counters == Tally(worlds, steps, n)
  {
    if n > 0 {
      CountersCountSteps(worlds, steps, area, n - 1);
      StepCounts(worlds[n - 1], steps[n - 1], area);
    }
  }
}
