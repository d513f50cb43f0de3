/** What each operation of the AVC420 compositor does, told by the outcomes of the calls it makes
    (surface/avc420_gpu_compositor_state.cpp). */
module Avc420PresentRules {
  import opened FrameUtils
  import opened Avc420PendingPresent
  import opened Avc420ShownUpdates
  import R = Avc420WorkerRun
  import Q = Avc420WorkerQueue

  // ---- Commands ----

  predicate HasDrawable(rects: seq<Q.Rect>, width: nat, height: nat) {
    exists i :: 0 <= i < |rects| && rects[i].left < rects[i].right <= width && rects[i].top < rects[i].bottom <= height
  }

  /** The frame was decoded and at least one rectangle of it drawn. */
  predicate IsComposited(c: Command, active: bool) {
    ReachesDrawing(c, active) && c.drawing.Drawn? && HasDrawable(c.rects, c.width, c.height)
  }

  predicate LeavesPending(s: State, t: State) {
    && t.pending == s.pending && t.pendingFrameId == s.pendingFrameId
    && t.pendingWidth == s.pendingWidth && t.pendingHeight == s.pendingHeight
  }

  predicate Counts(s: State, t: State, queued: nat, overwrites: nat, failures: nat, ignored: nat) {
    && t.queued == s.queued + queued && t.overwrites == s.overwrites + overwrites
    && t.failures == s.failures + failures && t.ignored == s.ignored + ignored
    && t.presented == s.presented && t.mismatches == s.mismatches
    && t.gdiPending == s.gdiPending && t.gdiUpdates == s.gdiUpdates && t.gdiPresents == s.gdiPresents
  }

  /** A composited update is queued in place of any other; it counts as an overwrite only over one of its own size. */
  lemma CompositedIsQueued(s: State, c: Command, active: bool)
    requires IsComposited(c, active)
    ensures var (t, handled) := Processed(s, c, active);
            var same := s.pending && s.pendingWidth == c.width && s.pendingHeight == c.height;
            && handled && t.pending && t.pendingFrameId == c.frameId
            && t.pendingWidth == c.width && t.pendingHeight == c.height
            && t.currentWidth == c.width && t.currentHeight == c.height
            && Counts(s, t, 1, if same then 1 else 0, 0, 0)
            && t.composite.ready && t.composite.width == c.width && t.composite.height == c.height
  {
    var i :| 0 <= i < |c.rects| && c.rects[i].left < c.rects[i].right <= c.width
             && c.rects[i].top < c.rects[i].bottom <= c.height;
    assert R.IsDrawable(c.rects[i], c.width, c.height);
  }

  lemma NotCompositedOutcome(c: Command, active: bool)
    requires ReachesDrawing(c, active) && !IsComposited(c, active)
    ensures !OutcomeOf(c.drawing, c.rects, c.width, c.height).Drawn?
  {
    if c.drawing.Drawn? && exists i :: 0 <= i < |c.rects| && R.IsDrawable(c.rects[i], c.width, c.height) {
      var i :| 0 <= i < |c.rects| && R.IsDrawable(c.rects[i], c.width, c.height);
      assert HasDrawable(c.rects, c.width, c.height);
    }
  }

  /** What goes wrong with an active command that is not composited: it only waits for output, it lacks parameter sets,
      or something failed. */
  predicate WaitsForOutput(c: Command) {
    c.offscreenReady && c.hasParameterSets && c.decoderReady && c.decode.NoOutput?
  }

  predicate LacksParameterSets(c: Command) { c.offscreenReady && !c.hasParameterSets }

  /** While active, any acceptable command that is not composited drops the pending update. Missing output keeps the GPU
      in charge. Missing parameter sets give the output back from the sixth ignored update on; any other trouble is a
      failure, which gives it back at the third failure or at the sixth ignored update. */
  lemma ActiveTroubleDoesExactly(s: State, c: Command)
    requires c.acceptable && !IsComposited(c, true)
    ensures var (t, handled) := Processed(s, c, true);
            && !t.pending
            && (if WaitsForOutput(c) then handled && Counts(s, t, 0, 0, 0, 1)
                else if LacksParameterSets(c) then (handled <==> s.ignored + 1 < 6) && Counts(s, t, 0, 0, 0, 1)
                else if s.failures + 1 >= 3 then !handled && Counts(s, t, 0, 0, 1, 0)
                else (handled <==> s.ignored + 1 < 6) && Counts(s, t, 0, 0, 1, 1))
  {
    if ReachesDrawing(c, true) {
      NotCompositedOutcome(c, true);
    }
  }

  /** Before the GPU is in charge no command but a composited one is handled. A decoder that does not start is a failure
      and drops the pending update, as does a drawing that fails; a frame without output drops one of another size;
      everything before that leaves it. */
  lemma InactiveTroubleDoesExactly(s: State, c: Command)
    requires !IsComposited(c, false)
    ensures var (t, handled) := Processed(s, c, false);
            var early := !c.acceptable || c.importSkipped || !c.offscreenReady || !c.hasParameterSets;
            var other := s.pendingWidth != c.width || s.pendingHeight != c.height;
            && !handled
            && (if early then t == s
                else if !c.decoderReady then !t.pending && Counts(s, t, 0, 0, 1, 0)
                else if !c.decode.Decoded? then
                  Counts(s, t, 0, 0, 0, 0) && if s.pending && other then !t.pending else LeavesPending(s, t)
                else !t.pending && Counts(s, t, 0, 0, 0, 0))
  {
    if ReachesDrawing(c, false) {
      NotCompositedOutcome(c, false);
    }
  }

  lemma UnacceptableIsIgnored(s: State, c: Command, active: bool)
    requires !c.acceptable
    ensures Processed(s, c, active) == (s, false)
  {
  }

  // ---- Backgrounds ----

  /** The pixels of a background are those of its dirty box inside the frame, or the whole frame when the box is
      invalid, empty, or begins outside. */
  lemma BackgroundPixels(f: GdiFrame, x: nat, y: nat)
    ensures var d := f.dirty;
            var whole := !d.valid || d.width == 0 || d.height == 0 || d.x >= f.width || d.y >= f.height;
            R.DrawsAny([BackgroundRect(f)], f.width, f.height, x, y) <==>
              x < f.width && y < f.height
              && (whole || (d.x <= x < d.x + d.width && d.y <= y < d.y + d.height))
  {
    var r := BackgroundRect(f);
    assert R.DrawsAny([r], f.width, f.height, x, y) <==> R.DrawsRect([r][0], f.width, f.height, x, y);
  }

  /** A background is taken exactly while active, valid and drawn; what fails after that counts as a failure. The
      pending update stays pending either way. */
  lemma BackgroundDoesExactly(s: State, f: GdiFrame, active: bool)
    requires f.valid ==> 0 < f.width && 0 < f.height
    ensures var t := WithGdi(s, f, active);
            && LeavesPending(s, t) && t.presented == s.presented && t.gdiPresents == s.gdiPresents
            && t.queued == s.queued && t.overwrites == s.overwrites && t.ignored == s.ignored
            && (if !active || !f.valid then t == s
                else if f.offscreenReady && f.drawing.Drawn? then
                  && t.gdiUpdates == s.gdiUpdates + 1 && t.gdiPending && t.failures == s.failures
                  && t.currentWidth == f.width && t.currentHeight == f.height && t.composite.ready
                else
                  && t.gdiUpdates == s.gdiUpdates && t.gdiPending == s.gdiPending && t.failures == s.failures + 1
                  && t.currentWidth == s.currentWidth && t.currentHeight == s.currentHeight)
  {
    if f.valid {
      assert R.IsDrawable([BackgroundRect(f)][0], f.width, f.height);
    }
  }

  lemma ReadyAfterDrawing(s: State, c: Command, active: bool)
    requires ReachesDrawing(c, active) && !IsComposited(c, active)
    ensures Processed(s, c, active).0.composite.ready <==> s.composite.ready && !PaintOf(s, Process(c, active)).anew
  {
    NotCompositedOutcome(c, active);
  }

  lemma ReadyAfterEarlyEnd(s: State, c: Command, active: bool)
    requires !ReachesDrawing(c, active)
    ensures Processed(s, c, active).0.composite.ready <==> s.composite.ready && !Destroys(s, c, active)
  {
  }

  lemma ReadyAfterCommand(s: State, c: Command, active: bool)
    ensures Processed(s, c, active).0.composite.ready <==>
              IsComposited(c, active) || (s.composite.ready && !PaintOf(s, Process(c, active)).anew)
  {
    if IsComposited(c, active) {
      CompositedIsQueued(s, c, active);
    } else if ReachesDrawing(c, active) {
      ReadyAfterDrawing(s, c, active);
    } else {
      ReadyAfterEarlyEnd(s, c, active);
    }
  }

  /** The composite can be shown exactly when something was drawn into it successfully since its surface was last
      started afresh. */
  lemma ReadyExactlyWhen(s: State, step: Step)
    requires step.Gdi? && step.frame.valid ==> 0 < step.frame.width && 0 < step.frame.height
    ensures StateAfter(s, step).composite.ready <==>
              || (step.Process? && IsComposited(step.command, step.active))
              || (step.Gdi? && step.active && step.frame.valid && step.frame.offscreenReady
                  && step.frame.drawing.Drawn?)
              || (s.composite.ready && !PaintOf(s, step).anew)
  {
    if step.Process? {
      ReadyAfterCommand(s, step.command, step.active);
    } else if step.Gdi? && step.frame.valid {
      BackgroundDoesExactly(s, step.frame, step.active);
    }
  }

  // ---- Presents ----

  predicate ShowsOne(w: World, w': World, trigger: Trigger) {
    && |w'.showings| == |w.showings| + 1 && w'.showings[|w.showings|].trigger == trigger
    && w'.s.presented == w.s.presented + 1
    && w'.s.gdiPresents == w.s.gdiPresents + (if w.s.gdiPending then 1 else 0) && !w'.s.gdiPending
    && !w'.s.pending && w'.s.failures == w.s.failures && w'.s.ignored == w.s.ignored
  }

  predicate NotShown(w: World, w': World) {
    && |w'.showings| == |w.showings| && w'.s.presented == w.s.presented
    && w'.s.gdiPresents == w.s.gdiPresents && w'.s.gdiPending == w.s.gdiPending
  }

  /** An EndFrame while an update, the latest queued, is pending: it is shown exactly if the EndFrame is its own and
      target, window, draw and composite are all there. A mismatch or a failed draw gives it up, a missing target too
      unless the output is active; a window that cannot be attached keeps it. */
  lemma EndFrameDoesExactly(steps: seq<Step>, f: EndFrame, active: bool)
    requires After(steps).s.pending
    ensures var w, w' := After(steps), Next(After(steps), End(f, active));
            && w.updates != []
            && var own := f.matched && f.frameId == w.updates[|w.updates| - 1].frameId;
               var o := f.output;
               if own && o.targetReady && o.windowReady && o.presentOk && w.s.composite.ready then
                 ShowsOne(w, w', AtEndFrame(f)) && w'.showings[|w.showings|].update == |w.updates| - 1
               else
                 && NotShown(w, w')
                 && w'.s.mismatches == w.s.mismatches + (if own then 0 else 1)
                 && (w'.s.pending <==> own && if o.targetReady then !o.windowReady else active)
                 && w'.s.failures == w.s.failures + (if own && (o.targetReady || !active) then 1 else 0)
                 && w'.s.ignored == w.s.ignored + (if own && o.targetReady && !o.windowReady then 0 else 1)
  {
    RunKeepsInv(steps);
  }

  /** A background waits, the GPU is in charge, no update is pending and the size is known. */
  predicate BackgroundWaits(s: State, active: bool) {
    active && s.gdiPending && !s.pending && s.currentWidth != 0 && s.currentHeight != 0
  }

  /** A background alone is shown, at once or at a matched EndFrame, exactly if it waits and target, window, draw and
      composite are all there. */
  lemma BackgroundAloneDoesExactly(w: World, step: Step, o: Output)
    requires !w.s.pending
    requires (step.GdiNow? && step.output == o) || (step.End? && step.end.output == o)
    ensures var w', due := Next(w, step), step.GdiNow? || step.end.matched;
            if !due || !BackgroundWaits(w.s, step.active) then NotShown(w, w') && w'.s == w.s
            else if o.targetReady && o.windowReady && o.presentOk && w.s.composite.ready then ShowsOne(w, w', GdiAlone)
            else
              && NotShown(w, w')
              && w'.s.failures == w.s.failures + (if o.targetReady then 1 else 0)
              && w'.s.ignored == w.s.ignored + (if o.targetReady && !o.windowReady then 0 else 1)
  {
  }

  /** A new target shows the composite at once exactly while active, with a known size, and with target, window, draw
      and composite all there; a failure there leaves the pending update pending. */
  lemma NewTargetDoesExactly(w: World, o: Output, active: bool)
    ensures var w' := Next(w, Retarget(o, active));
            var width := if w.s.pendingWidth != 0 then w.s.pendingWidth else w.s.currentWidth;
            var height := if w.s.pendingHeight != 0 then w.s.pendingHeight else w.s.currentHeight;
            if !active || !o.targetReady || width == 0 || height == 0 then NotShown(w, w') && w'.s == w.s
            else if o.windowReady && o.presentOk && w.s.composite.ready then ShowsOne(w, w', OnTarget)
            else NotShown(w, w') && w'.s == w.s.(failures := w.s.failures + 1)
  {
  }

  /** A run begins with nothing pending, no known size, nothing to show and every count at zero. */
  lemma BeginsWithNothing()
    ensures var s := After([]).s;
            && !s.pending && !s.gdiPending && s.currentWidth == 0 && s.currentHeight == 0 && !s.composite.ready
            && s.queued == 0 && s.presented == 0 && s.overwrites == 0 && s.gdiUpdates == 0 && s.gdiPresents == 0
            && s.failures == 0 && s.ignored == 0 && s.mismatches == 0
  {
  }

  predicate HoldsNothing(s: State) { s.pendingFrameId == 0 && s.pendingWidth == 0 && s.pendingHeight == 0 }

  predicate ForgotWhatIsOver(s: State) { s.pending || HoldsNothing(s) }

  lemma FailureForgetsWhatIsOver(s: State, active: bool, reset: bool)
    requires ForgotWhatIsOver(s)
    ensures ForgotWhatIsOver(Failed(s, active)) && ForgotWhatIsOver(Unhandled(s, reset)) && ForgotWhatIsOver(Cleared(s))
  {
  }

  lemma DrawingForgetsWhatIsOver(s: State, c: Command, active: bool)
    requires ForgotWhatIsOver(s)
    ensures ForgotWhatIsOver(DrawnWith(s, c, active).0)
  {
    var outcome := OutcomeOf(c.drawing, c.rects, c.width, c.height);
    var tried := s.(composite := AfterDrawing(s.composite, c.width, c.height, c.rects, s.queued, outcome));
    FailureForgetsWhatIsOver(tried, true, true);
  }

  lemma CommandForgetsWhatIsOver(s: State, c: Command, active: bool)
    requires ForgotWhatIsOver(s)
    ensures ForgotWhatIsOver(Processed(s, c, active).0)
  {
    var kept := if SizeChanged(s, c) then Cleared(s) else s;
    FailureForgetsWhatIsOver(s, true, true);
    FailureForgetsWhatIsOver(kept, active, false);
    FailureForgetsWhatIsOver(kept, true, true);
    DrawingForgetsWhatIsOver(kept, c, active);
  }

  lemma StepForgetsWhatIsOver(s: State, step: Step)
    requires ForgotWhatIsOver(s)
    ensures ForgotWhatIsOver(StateAfter(s, step))
  {
    if step.Process? {
      CommandForgetsWhatIsOver(s, step.command, step.active);
    }
  }

  /** Over any run, once nothing is pending neither frame id nor size of the last update is left. */
  lemma {:induction false} WhatIsOverIsForgotten(steps: seq<Step>)
    ensures ForgotWhatIsOver(After(steps).s)
  {
    if steps != [] {
      var n := |steps| - 1;
      WhatIsOverIsForgotten(steps[..n]);
      StepForgetsWhatIsOver(After(steps[..n]).s, steps[n]);
    }
  }
}
