/** Which updates the presents of the AVC420 compositor show: over runs of Avc420PendingPresent, whose pixels the
    retained composite holds (surface/avc420_native_buffer_renderer.cpp) when it is presented. */
module Avc420ShownUpdates {
  import opened FrameUtils
  import opened Avc420PendingPresent
  import R = Avc420WorkerRun
  import Q = Avc420WorkerQueue

  // ---- Whose pixels the composite holds ----

  /** What a step does to the composite: start it afresh, and then paint rectangles for an update or for none. */
  datatype Paint = Paint(anew: bool, rects: seq<Q.Rect>, width: nat, height: nat, update: int)

  predicate Covers(p: Paint, x: nat, y: nat) { R.DrawsAny(p.rects, p.width, p.height, x, y) }

  predicate Touches(p: Paint, x: nat, y: nat) { p.anew || Covers(p, x, y) }

  function PaintOfDrawing(c: Composite, width: nat, height: nat, rects: seq<Q.Rect>, update: int, outcome: Drawing):
    Paint
  {
    var anew := !outcome.NotBegun? && !HasSize(c, width, height);
    match outcome
    case DrawFailed(painted) => Paint(anew, painted, width, height, -1)
    case Drawn => Paint(anew, rects, width, height, update)
    case _ => Paint(anew, [], width, height, -1)
  }

  /** The command gets as far as drawing. */
  predicate ReachesDrawing(c: Command, active: bool) {
    c.acceptable && (active || !c.importSkipped) && c.offscreenReady && c.hasParameterSets && c.decoderReady
    && c.decode.Decoded?
  }

  /** While active the renderer is destroyed exactly when the command gives the output back; before that, when the
      decoder does not start or a decoded frame cannot be drawn. */
  predicate Destroys(s: State, c: Command, active: bool) {
    && c.acceptable
    && if active then !Processed(s, c, active).1
       else !c.importSkipped && c.offscreenReady && c.hasParameterSets
            && (!c.decoderReady || (c.decode.Decoded? && !OutcomeOf(c.drawing, c.rects, c.width, c.height).Drawn?))
  }

  function PaintOf(s: State, step: Step): Paint {
    match step
    case Process(c, active) =>
      if Destroys(s, c, active) then Paint(true, [], 0, 0, -1)
      else if !ReachesDrawing(c, active) then Paint(false, [], 0, 0, -1)
      else PaintOfDrawing(s.composite, c.width, c.height, c.rects, s.queued,
                          OutcomeOf(c.drawing, c.rects, c.width, c.height))
    case Gdi(f, active) =>
      if !active || !f.valid || !f.offscreenReady then Paint(false, [], 0, 0, -1)
      else PaintOfDrawing(s.composite, f.width, f.height, [BackgroundRect(f)], -1,
                          OutcomeOf(f.drawing, [BackgroundRect(f)], f.width, f.height))
    case Reset => Paint(true, [], 0, 0, -1)
    case _ => Paint(false, [], 0, 0, -1)
  }

  function PixelAfter(p: Paint, before: int, x: nat, y: nat): int {
    if Covers(p, x, y) then p.update else if p.anew then -1 else before
  }

  lemma DrawingPaints(c: Composite, width: nat, height: nat, rects: seq<Q.Rect>, update: int, outcome: Drawing,
                      x: nat, y: nat)
    ensures AfterDrawing(c, width, height, rects, update, outcome).picture(x, y) ==
            PixelAfter(PaintOfDrawing(c, width, height, rects, update, outcome), c.picture(x, y), x, y)
  {
  }

  lemma DrawnWithPaints(s: State, c: Command, active: bool, x: nat, y: nat)
    ensures var r, outcome := DrawnWith(s, c, active), OutcomeOf(c.drawing, c.rects, c.width, c.height);
            r.0.composite.picture(x, y) ==
            if (active && !r.1) || (!active && !outcome.Drawn?) then -1
            else PixelAfter(PaintOfDrawing(s.composite, c.width, c.height, c.rects, s.queued, outcome),
                            s.composite.picture(x, y), x, y)
  {
    var outcome := OutcomeOf(c.drawing, c.rects, c.width, c.height);
    DrawingPaints(s.composite, c.width, c.height, c.rects, s.queued, outcome, x, y);
  }

  lemma EarlyEndPaints(s: State, c: Command, active: bool, x: nat, y: nat)
    requires !ReachesDrawing(c, active)
    ensures Processed(s, c, active).0.composite.picture(x, y) ==
            if Destroys(s, c, active) then -1 else s.composite.picture(x, y)
  {
  }

  lemma DrawingCommandPaints(s: State, c: Command, active: bool, x: nat, y: nat)
    requires ReachesDrawing(c, active)
    ensures Processed(s, c, active).0.composite.picture(x, y) ==
            PixelAfter(PaintOf(s, Process(c, active)), s.composite.picture(x, y), x, y)
  {
    var t := if SizeChanged(s, c) then Cleared(s) else s;
    assert Processed(s, c, active) == DrawnWith(t, c, active);
    DrawnWithPaints(t, c, active, x, y);
  }

  lemma CommandPaints(s: State, c: Command, active: bool, x: nat, y: nat)
    ensures Processed(s, c, active).0.composite.picture(x, y) ==
            PixelAfter(PaintOf(s, Process(c, active)), s.composite.picture(x, y), x, y)
  {
    if ReachesDrawing(c, active) {
      DrawingCommandPaints(s, c, active, x, y);
    } else {
      EarlyEndPaints(s, c, active, x, y);
    }
  }

  lemma StepPaints(s: State, step: Step, x: nat, y: nat)
    ensures StateAfter(s, step).composite.picture(x, y) ==
            PixelAfter(PaintOf(s, step), s.composite.picture(x, y), x, y)
  {
    if step.Process? {
      CommandPaints(s, step.command, step.active, x, y);
    }
  }

  function Paints(steps: seq<Step>): (paints: seq<Paint>)
    ensures |paints| == |steps| && forall k: nat | k < |steps| :: paints[k] == PaintOf(At(steps, k).s, steps[k])
  {
    seq(|steps|, (k: nat) requires k < |steps| => PaintOf(At(steps, k).s, steps[k]))
  }

  /** The paint at q painted the pixel for the update u, and none from then to n has touched it. */
  predicate PaintedLast(paints: seq<Paint>, q: nat, n: nat, x: nat, y: nat, u: nat)
    requires q < n <= |paints|
  {
    paints[q].update == u && Covers(paints[q], x, y) && forall k: nat | q < k < n :: !Touches(paints[k], x, y)
  }

  /** Up to n, the update was the last to paint the pixel, and the surface has not been started afresh since. */
  predicate IsLastAt(paints: seq<Paint>, n: nat, x: nat, y: nat, u: nat)
    requires n <= |paints|
  {
    exists q: nat :: q < n && PaintedLast(paints, q, n, x, y, u)
  }

  lemma OneMorePaint(paints: seq<Paint>, n: nat, x: nat, y: nat, u: nat)
    requires n < |paints|
    ensures IsLastAt(paints, n + 1, x, y, u) <==>
              if Covers(paints[n], x, y) then paints[n].update == u
              else !paints[n].anew && IsLastAt(paints, n, x, y, u)
  {
    if Covers(paints[n], x, y) && paints[n].update == u {
      assert PaintedLast(paints, n, n + 1, x, y, u);
    }
    if !Touches(paints[n], x, y) && IsLastAt(paints, n, x, y, u) {
      var q: nat :| q < n && PaintedLast(paints, q, n, x, y, u);
      assert PaintedLast(paints, q, n + 1, x, y, u);
    }
    if IsLastAt(paints, n + 1, x, y, u) {
      var q: nat :| q < n + 1 && PaintedLast(paints, q, n + 1, x, y, u);
      if q < n { assert PaintedLast(paints, q, n, x, y, u); }
    }
  }

  /** Over every run, and for every pixel and every update: the composite holds the update there exactly when it was
      the last to paint the pixel and the surface has not been started afresh since. */
  lemma {:induction false} PixelBelongsTo(steps: seq<Step>, n: nat, x: nat, y: nat, u: nat)
    requires n <= |steps|
    ensures At(steps, n).s.composite.picture(x, y) == u <==> IsLastAt(Paints(steps), n, x, y, u)
  {
    if n > 0 {
      AtStep(steps, n - 1);
      StepPaints(At(steps, n - 1).s, steps[n - 1], x, y);
      PixelBelongsTo(steps, n - 1, x, y, u);
      OneMorePaint(Paints(steps), n - 1, x, y, u);
    }
  }

  /** Some pixel of the update is left after all paints. */
  ghost predicate Survives(paints: seq<Paint>, u: nat) {
    exists x: nat, y: nat :: IsLastAt(paints, |paints|, x, y, u)
  }

  lemma PresentShowsSurvivors(steps: seq<Step>, step: Step, u: nat)
    requires |Shown(After(steps).s, step)| == 1
    ensures Shows(Shown(After(steps).s, step)[0], u) <==> Survives(Paints(steps), u)
  {
    var shown, n := Shown(After(steps).s, step)[0], |steps|;
    assert steps[..n] == steps && shown.picture == After(steps).s.composite.picture;
    forall x: nat, y: nat ensures shown.picture(x, y) == u <==> IsLastAt(Paints(steps), n, x, y, u) {
      PixelBelongsTo(steps, n, x, y, u);
    }
  }

  // ---- What the present of an update shows ----

  predicate QueuedAt(steps: seq<Step>, q: nat, u: int)
    requires q < |steps|
  {
    Queues(At(steps, q).s, steps[q]) && At(steps, q).s.queued == u
  }

  function Worlds(steps: seq<Step>): (worlds: seq<World>)
    ensures |worlds| == |steps| + 1 && forall k: nat | k <= |steps| :: worlds[k] == At(steps, k)
  {
    seq(|steps| + 1, (k: nat) requires k <= |steps| => At(steps, k))
  }

  ghost predicate IsTrace(worlds: seq<World>, steps: seq<Step>) {
    && |worlds| == |steps| + 1 && worlds[0] == Start()
    && (forall k: nat | k <= |steps| :: Inv(worlds[k]))
    && (forall k: nat | k < |steps| :: worlds[k + 1] == Next(worlds[k], steps[k]))
  }

  lemma WorldsAreATrace(steps: seq<Step>)
    ensures IsTrace(Worlds(steps), steps)
  {
    assert steps[..0] == [];
    forall k: nat | k <= |steps| ensures Inv(Worlds(steps)[k]) {
      RunKeepsInv(steps[..k]);
    }
    forall k: nat | k < |steps| ensures Worlds(steps)[k + 1] == Next(Worlds(steps)[k], steps[k]) {
      AtStep(steps, k);
    }
  }

  /** From q to n one and the same update waits for its present. */
  predicate Waits(worlds: seq<World>, q: nat, n: nat, u: int)
    requires q < n < |worlds|
  {
    forall k: nat | q < k <= n :: PendingUpdate(worlds[k].s) == u
  }

  lemma WhereThePendingComesFrom(w: World, step: Step)
    requires Inv(w) && Next(w, step).s.pending
    ensures var u := PendingUpdate(Next(w, step).s);
            u >= 0 && if Queues(w.s, step) then w.s.queued == u else w.s.pending && PendingUpdate(w.s) == u
  {
    if step.Process? {
      ProcessedEffect(w.s, step.command, step.active);
    } else if !step.Reset? {
      OtherStepsEffect(w.s, step);
    }
  }

  lemma {:induction false} WaitingSince(worlds: seq<World>, steps: seq<Step>, n: nat, u: int) returns (q: nat)
    requires IsTrace(worlds, steps) && n <= |steps| && worlds[n].s.pending && u == PendingUpdate(worlds[n].s)
    ensures u >= 0 && q < n && Queues(worlds[q].s, steps[q]) && worlds[q].s.queued == u && Waits(worlds, q, n, u)
    decreases n
  {
    assert n > 0;
    q := n - 1;
    WhereThePendingComesFrom(worlds[q], steps[q]);
    if !Queues(worlds[q].s, steps[q]) {
      q := WaitingSince(worlds, steps, n - 1, u);
    }
  }

  /** A background that gets as far as the surface. */
  predicate BeginsBackground(step: Step) {
    step.Gdi? && step.active && step.frame.valid && step.frame.offscreenReady && !step.frame.drawing.NotBegun?
  }

  predicate OtherSize(step: Step, c: Command) {
    BeginsBackground(step) && (step.frame.width != c.width || step.frame.height != c.height)
  }

  function BackgroundPaints(f: GdiFrame): seq<Q.Rect> {
    match OutcomeOf(f.drawing, [BackgroundRect(f)], f.width, f.height)
    case Drawn => [BackgroundRect(f)]
    case DrawFailed(painted) => painted
    case _ => []
  }

  predicate BackgroundCovers(step: Step, x: nat, y: nat) {
    BeginsBackground(step) && R.DrawsAny(BackgroundPaints(step.frame), step.frame.width, step.frame.height, x, y)
  }

  /** No background of another size than the command's comes between q and n. */
  predicate KeepsSurface(steps: seq<Step>, q: nat, n: nat, c: Command)
    requires q < n <= |steps|
  {
    forall k: nat | q < k < n :: !OtherSize(steps[k], c)
  }

  /** The pixel lies in a rectangle of the command and outside every box painted between q and n. */
  predicate StaysUncovered(steps: seq<Step>, q: nat, n: nat, c: Command, x: nat, y: nat)
    requires q < n <= |steps|
  {
    R.DrawsAny(c.rects, c.width, c.height, x, y) && forall k: nat | q < k < n :: !BackgroundCovers(steps[k], x, y)
  }

  lemma QueuedDraws(s: State, c: Command, active: bool)
    requires Queues(s, Process(c, active))
    ensures var t := Processed(s, c, active).0;
            t.composite == AfterDrawing(s.composite, c.width, c.height, c.rects, s.queued, Drawn)
  {
  }

  lemma DrawnWithWaits(s: State, c: Command, active: bool)
    ensures DrawnWith(s, c, active).0.pending ==> DrawnWith(s, c, active).0.queued == s.queued + 1
  {
  }

  lemma CommandWaits(s: State, c: Command, active: bool)
    requires s.pending
    requires var t := Processed(s, c, active).0; t.pending && t.queued == s.queued
    ensures Processed(s, c, active).0.composite == s.composite
  {
    if ReachesDrawing(c, active) {
      DrawnWithWaits(if SizeChanged(s, c) then Cleared(s) else s, c, active);
    }
  }

  /** While an update waits only backgrounds touch the composite. */
  lemma OthersWait(s: State, step: Step)
    requires s.pending && !step.Gdi? && StateAfter(s, step).pending && StateAfter(s, step).queued == s.queued
    ensures StateAfter(s, step).composite == s.composite
  {
    if step.Process? {
      CommandWaits(s, step.command, step.active);
    }
  }

  lemma BackgroundStepPaints(s: State, step: Step, x: nat, y: nat)
    requires step.Gdi?
    ensures StateAfter(s, step).composite.picture(x, y) ==
            if BeginsBackground(step)
               && (!HasSize(s.composite, step.frame.width, step.frame.height) || BackgroundCovers(step, x, y)) then -1
            else s.composite.picture(x, y)
  {
    StepPaints(s, step, x, y);
  }

  lemma BackgroundStepKeepsSize(s: State, step: Step, c: Command)
    requires step.Gdi? && HasSize(s.composite, c.width, c.height) && !OtherSize(step, c)
    ensures HasSize(StateAfter(s, step).composite, c.width, c.height)
  {
  }

  /** The pixels of a waiting update, up to n: the surface is still the command's, and nothing has covered them. */
  predicate HoldsWaiting(composite: Composite, c: Command, steps: seq<Step>, q: nat, n: nat, x: nat, y: nat, u: int)
    requires q < n <= |steps|
  {
    && (composite.picture(x, y) == u <==> KeepsSurface(steps, q, n, c) && StaysUncovered(steps, q, n, c, x, y))
    && (KeepsSurface(steps, q, n, c) ==> HasSize(composite, c.width, c.height))
  }

  lemma OneMoreWaits(steps: seq<Step>, q: nat, n: nat, c: Command, x: nat, y: nat)
    requires q < n < |steps|
    ensures && (KeepsSurface(steps, q, n + 1, c) <==> KeepsSurface(steps, q, n, c) && !OtherSize(steps[n], c))
            && (StaysUncovered(steps, q, n + 1, c, x, y) <==>
                  StaysUncovered(steps, q, n, c, x, y) && !BackgroundCovers(steps[n], x, y))
  {
  }

  lemma OneMoreHolds(s: State, t: State, step: Step, c: Command, x: nat, y: nat, u: int, kept: bool, clear: bool)
    requires s.pending && t == StateAfter(s, step) && t.pending && t.queued == s.queued && u >= 0
    requires (s.composite.picture(x, y) == u <==> kept && clear) && (kept ==> HasSize(s.composite, c.width, c.height))
    ensures t.composite.picture(x, y) == u <==>
              (kept && !OtherSize(step, c)) && (clear && !BackgroundCovers(step, x, y))
    ensures kept && !OtherSize(step, c) ==> HasSize(t.composite, c.width, c.height)
  {
    if step.Gdi? {
      BackgroundStepPaints(s, step, x, y);
      if kept && !OtherSize(step, c) {
        BackgroundStepKeepsSize(s, step, c);
      }
    } else {
      OthersWait(s, step);
    }
  }

  /** No pixel of the composite is of an update still to come. */
  lemma {:induction false} NoLaterUpdate(steps: seq<Step>, n: nat, x: nat, y: nat)
    requires n <= |steps|
    ensures At(steps, n).s.composite.picture(x, y) < At(steps, n).s.queued
  {
    if n > 0 {
      AtStep(steps, n - 1);
      StepPaints(At(steps, n - 1).s, steps[n - 1], x, y);
      NoLaterUpdate(steps, n - 1, x, y);
      PaintIsOfAnUpdate(At(steps, n - 1).s, steps[n - 1]);
    }
  }

  lemma PaintIsOfAnUpdate(s: State, step: Step)
    ensures step.Reset? || PaintOf(s, step).update < StateAfter(s, step).queued
    ensures step.Reset? || s.queued <= StateAfter(s, step).queued
  {
    if step.Process? {
      ProcessedEffect(s, step.command, step.active);
      if PaintOf(s, step).update == s.queued { DrawingQueues(s, step.command, step.active); }
    }
  }

  lemma DrawingQueues(s: State, c: Command, active: bool)
    requires ReachesDrawing(c, active) && OutcomeOf(c.drawing, c.rects, c.width, c.height).Drawn?
    ensures Processed(s, c, active).0.queued == s.queued + 1
  {
  }

  lemma JustQueuedHolds(before: State, after: State, c: Command, x: nat, y: nat)
    requires after.composite == AfterDrawing(before.composite, c.width, c.height, c.rects, before.queued, Drawn)
    requires before.composite.picture(x, y) < before.queued
    ensures after.composite.picture(x, y) == before.queued <==> R.DrawsAny(c.rects, c.width, c.height, x, y)
    ensures HasSize(after.composite, c.width, c.height)
  {
  }

  lemma WaitingBegins(steps: seq<Step>, q: nat, x: nat, y: nat, u: int)
    requires q < |steps| && QueuedAt(steps, q, u)
    ensures HoldsWaiting(At(steps, q + 1).s.composite, steps[q].command, steps, q, q + 1, x, y, u)
  {
    AtStep(steps, q);
    QueuedDraws(At(steps, q).s, steps[q].command, steps[q].active);
    NoLaterUpdate(steps, q, x, y);
    JustQueuedHolds(At(steps, q).s, At(steps, q + 1).s, steps[q].command, x, y);
  }

  lemma WaitingGoesOn(s: State, t: State, c: Command, steps: seq<Step>, q: nat, n: nat, x: nat, y: nat, u: int)
    requires q < n < |steps| && u >= 0 && HoldsWaiting(s.composite, c, steps, q, n, x, y, u)
    requires t == StateAfter(s, steps[n]) && PendingUpdate(s) == u && PendingUpdate(t) == u
    ensures HoldsWaiting(t.composite, c, steps, q, n + 1, x, y, u)
  {
    var kept, uncovered := KeepsSurface(steps, q, n, c), StaysUncovered(steps, q, n, c, x, y);
    OneMoreWaits(steps, q, n, c, x, y);
    OneMoreHolds(s, t, steps[n], c, x, y, u, kept, uncovered);
  }

  lemma TraceStep(worlds: seq<World>, steps: seq<Step>, k: nat)
    requires IsTrace(worlds, steps) && k < |steps|
    ensures worlds[k + 1].s == StateAfter(worlds[k].s, steps[k])
  {
  }

  lemma {:induction false} WaitingPixel(worlds: seq<World>, steps: seq<Step>, q: nat, n: nat, c: Command,
                                        x: nat, y: nat, u: int)
    requires IsTrace(worlds, steps) && q < n <= |steps| && Waits(worlds, q, n, u) && u >= 0
    requires HoldsWaiting(worlds[q + 1].s.composite, c, steps, q, q + 1, x, y, u)
    ensures HoldsWaiting(worlds[n].s.composite, c, steps, q, n, x, y, u)
    decreases n
  {
    if n > q + 1 {
      var k := n - 1;
      WaitingPixel(worlds, steps, q, k, c, x, y, u);
      TraceStep(worlds, steps, k);
      WaitingGoesOn(worlds[k].s, worlds[k + 1].s, c, steps, q, k, x, y, u);
    }
  }

  lemma NewShowing(w: World, step: Step, j: nat)
    requires j < |Next(w, step).showings|
    ensures if j < |w.showings| then Next(w, step).showings[j] == w.showings[j]
            else Shown(w.s, step) == [Next(w, step).showings[j]]
  {
    if !step.Reset? && !step.Process? {
      OtherStepsEffect(w.s, step);
    }
  }

  /** Where a present of a run was made. */
  lemma {:induction false} PresentMadeAt(steps: seq<Step>, m: nat, j: nat) returns (n: nat)
    requires m <= |steps| && j < |At(steps, m).showings|
    ensures n < m && Shown(At(steps, n).s, steps[n]) == [At(steps, m).showings[j]]
    decreases m
  {
    assert m > 0;
    n := m - 1;
    AtStep(steps, n);
    NewShowing(At(steps, n), steps[n], j);
    if j < |At(steps, n).showings| {
      n := PresentMadeAt(steps, n, j);
    }
  }

  lemma WaitedPixel(steps: seq<Step>, q: nat, n: nat, x: nat, y: nat, u: int)
    requires q < n <= |steps| && QueuedAt(steps, q, u) && u >= 0
    requires Waits(Worlds(steps), q, n, u)
    ensures HoldsWaiting(At(steps, n).s.composite, steps[q].command, steps, q, n, x, y, u)
  {
    WorldsAreATrace(steps);
    WaitingBegins(steps, q, x, y, u);
    WaitingPixel(Worlds(steps), steps, q, n, steps[q].command, x, y, u);
  }

  predicate PixelIsShown(shown: Showing, steps: seq<Step>, q: nat, n: nat, c: Command, x: nat, y: nat)
    requires q < n <= |steps|
  {
    shown.picture(x, y) == shown.update <==> KeepsSurface(steps, q, n, c) && StaysUncovered(steps, q, n, c, x, y)
  }

  lemma PixelsAreShown(shown: Showing, steps: seq<Step>, q: nat, n: nat, c: Command)
    requires q < n <= |steps| && shown.update >= 0
    requires forall x: nat, y: nat :: PixelIsShown(shown, steps, q, n, c, x, y)
    ensures Shows(shown, shown.update) <==>
              KeepsSurface(steps, q, n, c) && exists x: nat, y: nat :: StaysUncovered(steps, q, n, c, x, y)
  {
    if Shows(shown, shown.update) {
      var x: nat, y: nat :| shown.picture(x, y) == shown.update;
      assert PixelIsShown(shown, steps, q, n, c, x, y);
    }
    if x: nat, y: nat :| KeepsSurface(steps, q, n, c) && StaysUncovered(steps, q, n, c, x, y) {
      assert PixelIsShown(shown, steps, q, n, c, x, y);
    }
  }

  /** The update pending at n was queued at some step and has waited since. */
  lemma UpdateWaited(steps: seq<Step>, n: nat) returns (q: nat)
    requires n <= |steps| && At(steps, n).s.pending
    ensures var u := PendingUpdate(At(steps, n).s);
            q < n && u >= 0 && QueuedAt(steps, q, u) && Waits(Worlds(steps), q, n, u)
  {
    WorldsAreATrace(steps);
    q := WaitingSince(Worlds(steps), steps, n, PendingUpdate(At(steps, n).s));
  }

  lemma PresentAtShows(steps: seq<Step>, q: nat, n: nat, shown: Showing)
    requires q < n < |steps| && Shown(At(steps, n).s, steps[n]) == [shown] && shown.update >= 0
    requires QueuedAt(steps, q, shown.update) && Waits(Worlds(steps), q, n, shown.update)
    ensures var c := steps[q].command;
            Shows(shown, shown.update) <==>
              KeepsSurface(steps, q, n, c) && exists x: nat, y: nat :: StaysUncovered(steps, q, n, c, x, y)
  {
    assert shown.picture == At(steps, n).s.composite.picture;
    forall x: nat, y: nat ensures PixelIsShown(shown, steps, q, n, steps[q].command, x, y) {
      WaitedPixel(steps, q, n, x, y, shown.update);
    }
    PixelsAreShown(shown, steps, q, n, steps[q].command);
  }

  /** The present of an update, over every run: the update was queued at q and presented at n. The composite presented
      holds a pixel of the update if and only if no background of another size came in between, and some pixel of
      the rectangles of its command lies outside every box painted in between. */
  lemma PresentShowsItsUpdate(steps: seq<Step>, j: nat) returns (q: nat, n: nat)
    requires j < |After(steps).showings| && After(steps).showings[j].update >= 0
    ensures var shown := After(steps).showings[j];
            && q < n < |steps| && QueuedAt(steps, q, shown.update) && Shown(At(steps, n).s, steps[n]) == [shown]
            && var c := steps[q].command;
               Shows(shown, shown.update) <==>
                 KeepsSurface(steps, q, n, c) && exists x: nat, y: nat :: StaysUncovered(steps, q, n, c, x, y)
  {
    var shown := After(steps).showings[j];
    assert steps[..|steps|] == steps;
    n := PresentMadeAt(steps, |steps|, j);
    assert shown.update == PendingUpdate(At(steps, n).s);
    q := UpdateWaited(steps, n);
    PresentAtShows(steps, q, n, shown);
  }

  /** Exactly when a step of a run presents a composite that holds a pixel of the update u with nothing pending: on a
      new target, or with a background shown alone, while u survives the paints of the run. The update has then had
      its own present, or was overwritten or given up. */
  lemma ShownAgainExactlyWhen(steps: seq<Step>, step: Step, u: nat)
    ensures var w := After(steps);
            var s, shown := w.s, Shown(w.s, step);
            && (|shown| == 1 && shown[0].update < 0 && Shows(shown[0], u) <==>
                  && !s.pending && Survives(Paints(steps), u)
                  && match step
                     case Retarget(o, active) => active && KnowsSize(s) && Works(s, o)
                     case GdiNow(o, active) => ShowsGdiAlone(s, o, active)
                     case End(f, active) => f.matched && ShowsGdiAlone(s, f.output, active)
                     case _ => false)
            && (|shown| == 1 && shown[0].update < 0 && Shows(shown[0], u) ==> u < s.queued && IsOver(w, u))
  {
    var w := After(steps);
    RunKeepsInv(steps);
    if |Shown(w.s, step)| == 1 {
      PresentShowsSurvivors(steps, step, u);
      if Shows(Shown(w.s, step)[0], u) {
        var x: nat, y: nat :| w.s.composite.picture(x, y) == u;
        assert steps[..|steps|] == steps;
        NoLaterUpdate(steps, |steps|, x, y);
      }
    }
  }

  // ---- Examples ----

  lemma AfterOneMore(steps: seq<Step>, step: Step)
    ensures After(steps + [step]) == Next(After(steps), step)
  {
    assert (steps + [step])[..|steps|] == steps;
  }

  function MatchedEnd(): EndFrame { EndFrame(7, true, Output(true, true, true)) }

  function FullUpdate(): Command {
    Command(true, false, 7, 64, 64, [Q.Rect(0, 0, 64, 64)], true, true, true, Decoded, Drawn)
  }

  /** A run that queues one update of the whole 64x64 surface for frame 7. */
  lemma QueuesOne() returns (steps: seq<Step>)
    ensures |steps| == 1 && After(steps) == World(Queued(Fresh(), FullUpdate()), [FullUpdate()], [], [], [])
  {
    var c := FullUpdate();
    assert R.IsDrawable(c.rects[0], c.width, c.height);
    steps := [Process(c, true)];
    AfterOneMore([], steps[0]);
    assert [] + [steps[0]] == steps;
  }

  lemma FullUpdatePaints(x: nat, y: nat)
    ensures Queued(Fresh(), FullUpdate()).composite.picture(x, y) == if x < 64 && y < 64 then 0 else -1
  {
    var c := FullUpdate();
    assert c.rects[0] == Q.Rect(0, 0, 64, 64);
    assert R.DrawsAny(c.rects, 64, 64, x, y) <==> R.DrawsRect(c.rects[0], 64, 64, x, y);
  }

  lemma ShownAtItsEnd(w: World, f: EndFrame)
    requires ShowsUpdate(w.s, f)
    ensures var w' := Next(w, End(f, true));
            && w'.showings == w.showings + [ShowingOf(w.s, AtEndFrame(f))]
            && w'.s == Cleared(PresentedAll(w.s))
  {
  }

  lemma ShownOnTarget(w: World, o: Output)
    requires ShowsAgain(w.s, o, true)
    ensures var w' := Next(w, Retarget(o, true));
            && w'.showings == w.showings + [ShowingOf(w.s, OnTarget)]
            && w'.s.presented == w.s.presented + 1 && w'.s.queued == w.s.queued
  {
  }

  /** Presents can outnumber the updates: one update is shown at its EndFrame and once more on a new target. */
  lemma UpdateCanBeShownTwice() returns (steps: seq<Step>)
    ensures var w := After(steps);
            && |w.showings| == 2 && Shows(w.showings[0], 0) && Shows(w.showings[1], 0)
            && w.showings[0].trigger.AtEndFrame? && w.showings[1].trigger.OnTarget?
            && w.s.queued == 1 && w.s.presented == 2
  {
    steps := QueuesOne();
    var end, again := End(MatchedEnd(), true), Retarget(MatchedEnd().output, true);
    FullUpdatePaints(0, 0);
    AfterOneMore(steps, end);
    ShownAtItsEnd(After(steps), MatchedEnd());
    steps := steps + [end];
    AfterOneMore(steps, again);
    ShownOnTarget(After(steps), MatchedEnd().output);
    steps := steps + [again];
    assert After(steps).showings[0].picture(0, 0) == 0 == After(steps).showings[1].picture(0, 0);
  }

  lemma BackgroundTaken(w: World, f: GdiFrame)
    requires f.valid && f.offscreenReady && OutcomeOf(f.drawing, [BackgroundRect(f)], f.width, f.height).Drawn?
    ensures var w' := Next(w, Gdi(f, true));
            && w'.s.composite == AfterDrawing(w.s.composite, f.width, f.height, [BackgroundRect(f)], -1, Drawn)
            && w'.showings == w.showings && w'.s.pending == w.s.pending
            && w'.s.pendingFrameId == w.s.pendingFrameId
            && w'.s.queued == w.s.queued && w'.s.presented == w.s.presented
  {
    assert w.showings + [] == w.showings;
  }

  /** A full background of any size takes every pixel of the update. */
  lemma NothingLeftUnder(f: GdiFrame, x: nat, y: nat)
    requires !f.dirty.valid
    ensures var c := Queued(Fresh(), FullUpdate()).composite;
            AfterDrawing(c, f.width, f.height, [BackgroundRect(f)], -1, Drawn).picture(x, y) == -1
  {
    FullUpdatePaints(x, y);
    if x < f.width && y < f.height {
      assert R.DrawsRect([BackgroundRect(f)][0], f.width, f.height, x, y);
    }
  }

  lemma HiddenBy(f: GdiFrame) returns (steps: seq<Step>)
    requires f.valid && f.offscreenReady && f.drawing.Drawn? && !f.dirty.valid && f.width == f.height > 0
    ensures var w := After(steps);
            && |steps| == 3 && steps[1] == Gdi(f, true)
            && |w.showings| == 1 && w.showings[0].update == 0 && !Shows(w.showings[0], 0) && w.s.presented == 1
  {
    steps := QueuesOne();
    var c, end := After(steps).s.composite, End(MatchedEnd(), true);
    assert R.IsDrawable([BackgroundRect(f)][0], f.width, f.height);
    forall x: nat, y: nat
      ensures AfterDrawing(c, f.width, f.height, [BackgroundRect(f)], -1, Drawn).picture(x, y) == -1
    {
      NothingLeftUnder(f, x, y);
    }
    AfterOneMore(steps, Gdi(f, true));
    BackgroundTaken(After(steps), f);
    steps := steps + [Gdi(f, true)];
    AfterOneMore(steps, end);
    ShownAtItsEnd(After(steps), MatchedEnd());
    steps := steps + [end];
  }

  function FullBackground(size: nat): GdiFrame {
    GdiFrame(true, size, size, DirtyFrameStats(false, 0, 0, 0, 0, 0, 0), true, Drawn)
  }

  /** A present can be counted for an update of which nothing is left, after a background of another size, ... */
  lemma UpdateCanBeWipedOff() returns (steps: seq<Step>)
    ensures var w := After(steps);
            && |steps| == 3 && steps[1] == Gdi(FullBackground(32), true)
            && |w.showings| == 1 && w.showings[0].update == 0 && !Shows(w.showings[0], 0) && w.s.presented == 1
  {
    steps := HiddenBy(FullBackground(32));
  }

  /** ... or of the same size, painted over the whole of it. */
  lemma UpdateCanBePaintedOver() returns (steps: seq<Step>)
    ensures var w := After(steps);
            && |steps| == 3 && steps[1] == Gdi(FullBackground(64), true)
            && |w.showings| == 1 && w.showings[0].update == 0 && !Shows(w.showings[0], 0) && w.s.presented == 1
  {
    steps := HiddenBy(FullBackground(64));
  }
}
