/** When retained AVC420 updates and GDI backgrounds reach the screen (surface/avc420_gpu_compositor_state.cpp).
    Decoding, drawing and presenting are foreign calls; their outcomes are parameters. */
module Avc420PendingPresent {
  import opened FrameUtils
  import R = Avc420WorkerRun
  import Q = Avc420WorkerQueue

  const ACTIVE_FAILURE_FALLBACK_THRESHOLD: nat := 3
  const ACTIVE_RESET_IGNORE_FALLBACK_THRESHOLD: nat := 6

  datatype DecodeResult = Decoded | NoOutput | DecodeFailed

  /** How a drawing into the composite ended: failed before its surface was looked at, without a framebuffer for a
      new surface, failed after having painted some rectangles, or done. */
  datatype Drawing = NotBegun | NoFramebuffer | DrawFailed(painted: seq<Q.Rect>) | Drawn

  /** `importSkipped` stands for a surface size whose native import failed before. */
  datatype Command = Command(acceptable: bool, importSkipped: bool, frameId: nat, width: nat, height: nat,
                             rects: seq<Q.Rect>, offscreenReady: bool, hasParameterSets: bool, decoderReady: bool,
                             decode: DecodeResult, drawing: Drawing)

  datatype GdiFrame = GdiFrame(valid: bool, width: nat, height: nat, dirty: DirtyFrameStats, offscreenReady: bool,
                               drawing: Drawing)

  // ---- The retained composite ----

  /** For each pixel the update that painted it last, counted from 0 since the last Destroy, or -1 for the clear
      colour, a background, or a drawing that failed. */
  type Picture = (nat, nat) -> int

  datatype Composite = Composite(width: nat, height: nat, ready: bool, picture: Picture)

  function Blank(): Picture { (x: nat, y: nat) => -1 }

  function Gone(): Composite { Composite(0, 0, false, Blank()) }

  predicate HasSize(c: Composite, width: nat, height: nat) { c.width == width && c.height == height }

  /** Preparing the surface for another size starts it afresh. */
  function Prepared(c: Composite, width: nat, height: nat): Composite {
    if HasSize(c, width, height) then c else Composite(width, height, false, Blank())
  }

  function Painted(picture: Picture, rects: seq<Q.Rect>, width: nat, height: nat, update: int): Picture {
    (x: nat, y: nat) => if R.DrawsAny(rects, width, height, x, y) then update else picture(x, y)
  }

  /** A drawing none of whose rectangles can be drawn fails. */
  function OutcomeOf(drawing: Drawing, rects: seq<Q.Rect>, width: nat, height: nat): Drawing {
    if drawing.Drawn? && !exists i :: 0 <= i < |rects| && R.IsDrawable(rects[i], width, height) then DrawFailed([])
    else drawing
  }

  function AfterDrawing(c: Composite, width: nat, height: nat, rects: seq<Q.Rect>, update: int, outcome: Drawing):
    Composite
  {
    match outcome
    case NotBegun => c
    case NoFramebuffer => if HasSize(c, width, height) then c else Gone()
    case DrawFailed(painted) =>
      var p := Prepared(c, width, height);
      p.(picture := Painted(p.picture, painted, width, height, -1))
    case Drawn =>
      var p := Prepared(c, width, height);
      p.(ready := true, picture := Painted(p.picture, rects, width, height, update))
  }

  /** The box a background uploads: the whole frame when its dirty box says nothing, else the box cut off at the
      frame's edges. */
  function BackgroundRect(f: GdiFrame): Q.Rect {
    var d := f.dirty;
    if !d.valid || d.width == 0 || d.height == 0 || d.x >= f.width || d.y >= f.height then
      Q.Rect(0, 0, f.width, f.height)
    else Q.Rect(d.x, d.y, Min(d.x + d.width, f.width), Min(d.y + d.height, f.height))
  }

  /** A present attempt: the target, the window attach and the draw. */
  datatype Output = Output(targetReady: bool, windowReady: bool, presentOk: bool)

  datatype EndFrame = EndFrame(frameId: nat, matched: bool, output: Output)

  datatype State = State(pending: bool, pendingFrameId: nat, pendingWidth: nat, pendingHeight: nat,
                         currentWidth: nat, currentHeight: nat, gdiPending: bool,
                         queued: nat, presented: nat, overwrites: nat, gdiUpdates: nat, gdiPresents: nat,
                         failures: nat, ignored: nat, mismatches: nat, composite: Composite)

  function Fresh(): State { State(false, 0, 0, 0, 0, 0, false, 0, 0, 0, 0, 0, 0, 0, 0, Gone()) }

  // ---- The state after each operation ----

  function Cleared(s: State): State {
    s.(pending := false, pendingFrameId := 0, pendingWidth := 0, pendingHeight := 0)
  }

  function Ignored(s: State): State { Cleared(s).(ignored := s.ignored + 1) }

  /** After `reset` updates too many the output is given back, which the caller sees as not handled. */
  predicate KeepsOwner(s: State, reset: bool) { !reset || s.ignored + 1 < ACTIVE_RESET_IGNORE_FALLBACK_THRESHOLD }

  /** Giving the output back destroys the renderer and with it the composite. */
  function Unhandled(s: State, reset: bool): State {
    if KeepsOwner(s, reset) then Ignored(s) else Ignored(s).(composite := Gone())
  }

  function Failed(s: State, active: bool): State {
    var counted := s.(failures := s.failures + 1);
    if active && counted.failures < ACTIVE_FAILURE_FALLBACK_THRESHOLD then Unhandled(counted, true)
    else Cleared(counted).(composite := Gone())
  }

  predicate FailHandled(s: State, active: bool) {
    active && s.failures + 1 < ACTIVE_FAILURE_FALLBACK_THRESHOLD && KeepsOwner(s, true)
  }

  function WaitingFor(s: State, c: Command): State {
    s.(pending := true, pendingFrameId := c.frameId, pendingWidth := c.width, pendingHeight := c.height,
       currentWidth := c.width, currentHeight := c.height)
  }

  function Queued(s: State, c: Command): State {
    WaitingFor(s.(overwrites := s.overwrites + if s.pending then 1 else 0, queued := s.queued + 1,
                  composite := AfterDrawing(s.composite, c.width, c.height, c.rects, s.queued, Drawn)), c)
  }

  /** The part of a command after the decoder was found bootstrapped. */
  function DecodedWith(s: State, c: Command, active: bool): (State, bool) {
    if !c.decoderReady then (Failed(s, active), FailHandled(s, active))
    else if c.decode != Decoded then
      if !active then (s, false)
      else if c.decode.NoOutput? then (Unhandled(s, false), true)
      else (Failed(s, true), FailHandled(s, true))
    else DrawnWith(s, c, active)
  }

  /** The drawing of the decoded frame and what follows it. */
  function DrawnWith(s: State, c: Command, active: bool): (State, bool) {
    var outcome := OutcomeOf(c.drawing, c.rects, c.width, c.height);
    var tried := s.(composite := AfterDrawing(s.composite, c.width, c.height, c.rects, s.queued, outcome));
    if outcome.Drawn? then (Queued(s, c), true)
    else if active then (Failed(tried, true), FailHandled(tried, true))
    else (Cleared(s).(composite := Gone()), false)
  }

  predicate SizeChanged(s: State, c: Command) {
    s.pending && (s.pendingWidth != c.width || s.pendingHeight != c.height)
  }

  function Processed(s: State, c: Command, active: bool): (State, bool) {
    if !c.acceptable || (c.importSkipped && !active) then (s, false)
    else if !c.offscreenReady then if active then (Failed(s, true), FailHandled(s, true)) else (s, false)
    else if !c.hasParameterSets then if active then (Unhandled(s, true), KeepsOwner(s, true)) else (s, false)
    else DecodedWith(if SizeChanged(s, c) then Cleared(s) else s, c, active)
  }

  function WithGdi(s: State, f: GdiFrame, active: bool): State {
    if !active || !f.valid then s
    else if !f.offscreenReady then s.(failures := s.failures + 1)
    else
      var outcome := OutcomeOf(f.drawing, [BackgroundRect(f)], f.width, f.height);
      WithGdiDrawn(s.(composite := AfterDrawing(s.composite, f.width, f.height, [BackgroundRect(f)], -1, outcome)), f,
                   outcome)
  }

  function WithGdiDrawn(s: State, f: GdiFrame, outcome: Drawing): State {
    if !outcome.Drawn? then s.(failures := s.failures + 1)
    else s.(gdiUpdates := s.gdiUpdates + 1, gdiPending := true, currentWidth := f.width, currentHeight := f.height)
  }

  /** A successful present shows the GDI background along with everything else that is retained. */
  function PresentedAll(s: State): State {
    s.(presented := s.presented + 1, gdiPresents := s.gdiPresents + (if s.gdiPending then 1 else 0),
       gdiPending := false)
  }

  /** The draw to the window needs a composite that something was drawn into. */
  predicate Draws(s: State, o: Output) { o.presentOk && s.composite.ready }

  predicate Works(s: State, o: Output) { o.targetReady && o.windowReady && Draws(s, o) }

  /** A present of the GDI background alone. */
  predicate ShowsGdiAlone(s: State, o: Output, active: bool) {
    active && s.gdiPending && !s.pending && s.currentWidth != 0 && s.currentHeight != 0 && Works(s, o)
  }

  function GdiPresented(s: State, o: Output, active: bool): State {
    if !active || !s.gdiPending || s.pending || s.currentWidth == 0 || s.currentHeight == 0 then s
    else if !o.targetReady then s.(ignored := s.ignored + 1)
    else if !o.windowReady then s.(failures := s.failures + 1)
    else if !Draws(s, o) then s.(failures := s.failures + 1, ignored := s.ignored + 1)
    else PresentedAll(s)
  }

  predicate ShowsUpdate(s: State, f: EndFrame) {
    s.pending && f.matched && f.frameId == s.pendingFrameId && Works(s, f.output)
  }

  /** The pending update at an EndFrame. It stays pending when the target is away while the output is active, and
      when the window could not be attached. */
  function UpdateEnded(s: State, f: EndFrame, active: bool): State {
    if !f.matched || f.frameId != s.pendingFrameId then Ignored(s).(mismatches := s.mismatches + 1)
    else if !f.output.targetReady then
      if active then s.(ignored := s.ignored + 1) else Ignored(s).(failures := s.failures + 1)
    else if !f.output.windowReady then s.(failures := s.failures + 1)
    else if !Draws(s, f.output) then Ignored(s).(failures := s.failures + 1)
    else Cleared(PresentedAll(s))
  }

  function Ended(s: State, f: EndFrame, active: bool): State {
    if s.pending then UpdateEnded(s, f, active)
    else if f.matched then GdiPresented(s, f.output, active)
    else s
  }

  predicate KnowsSize(s: State) {
    && (if s.pendingWidth != 0 then s.pendingWidth else s.currentWidth) != 0
    && (if s.pendingHeight != 0 then s.pendingHeight else s.currentHeight) != 0
  }

  predicate ShowsAgain(s: State, o: Output, active: bool) { active && KnowsSize(s) && Works(s, o) }

  /** A new target: the retained composite is shown there at once, matched EndFrame or not. */
  function Retargeted(s: State, o: Output, active: bool): State {
    if !active || !o.targetReady || !KnowsSize(s) then s
    else if !o.windowReady || !Draws(s, o) then s.(failures := s.failures + 1)
    else Cleared(PresentedAll(s))
  }

  // ---- The operations ----

  class Compositor {
    var pending: bool
    var pendingFrameId: nat
    var pendingWidth: nat
    var pendingHeight: nat
    var currentWidth: nat
    var currentHeight: nat
    var gdiPending: bool
    var queued: nat
    var presented: nat
    var overwrites: nat
    var gdiUpdates: nat
    var gdiPresents: nat
    var failures: nat
    var ignored: nat
    var mismatches: nat
    var composite: Composite

    ghost function Now(): State
      reads this
    {
      State(pending, pendingFrameId, pendingWidth, pendingHeight, currentWidth, currentHeight, gdiPending,
            queued, presented, overwrites, gdiUpdates, gdiPresents, failures, ignored, mismatches, composite)
    }

    constructor ()
      ensures Now() == Fresh()
    {
      pending, pendingFrameId, pendingWidth, pendingHeight := false, 0, 0, 0;
      currentWidth, currentHeight, gdiPending := 0, 0, false;
      queued, presented, overwrites, gdiUpdates, gdiPresents := 0, 0, 0, 0, 0;
      failures, ignored, mismatches, composite := 0, 0, 0, Gone();
    }

    method Destroy()
      modifies this
      ensures Now() == Fresh()
    {
      composite := Gone();
      queued, presented, failures, ignored := 0, 0, 0, 0;
      gdiUpdates, gdiPresents, gdiPending := 0, 0, false;
      mismatches, overwrites := 0, 0;
      ClearPendingPresent();
      currentWidth, currentHeight := 0, 0;
    }

    method ClearPendingPresent()
      modifies this`pending, this`pendingFrameId, this`pendingWidth, this`pendingHeight
      ensures Now() == Cleared(old(Now()))
    {
      pending := false;
      pendingFrameId := 0;
      pendingWidth := 0;
      pendingHeight := 0;
    }

    method ApplyActiveUpdatePolicy(reset: bool) returns (handled: bool)
      modifies this
      ensures Now() == Unhandled(old(Now()), reset) && handled == KeepsOwner(old(Now()), reset)
    {
      ignored := ignored + 1;
      ClearPendingPresent();
      if reset && ignored >= ACTIVE_RESET_IGNORE_FALLBACK_THRESHOLD {
        composite := Gone();
        return false;
      }
      handled := true;
    }

    method Fail(active: bool) returns (handled: bool)
      modifies this
      ensures Now() == Failed(old(Now()), active) && handled == FailHandled(old(Now()), active)
    {
      failures := failures + 1;
      if active {
        if failures >= ACTIVE_FAILURE_FALLBACK_THRESHOLD {
          ClearPendingPresent();
          composite := Gone();
          return false;
        }
        handled := ApplyActiveUpdatePolicy(true);
      } else {
        ClearPendingPresent();
        composite := Gone();
        handled := false;
      }
    }

    method SetPendingPresent(c: Command)
      modifies this`pending, this`pendingFrameId, this`pendingWidth, this`pendingHeight, this`currentWidth,
               this`currentHeight
      ensures Now() == WaitingFor(old(Now()), c)
    {
      pending, pendingFrameId, pendingWidth, pendingHeight := true, c.frameId, c.width, c.height;
      currentWidth, currentHeight := c.width, c.height;
    }

    method QueuePresent(c: Command)
      modifies this
      ensures Now() == Queued(old(Now()), c)
    {
      composite := AfterDrawing(composite, c.width, c.height, c.rects, queued, Drawn);
      if pending {
        overwrites := overwrites + 1;
      }
      queued := queued + 1;
      SetPendingPresent(c);
    }

    method DrawAndQueue(c: Command, active: bool) returns (handled: bool)
      modifies this
      ensures (Now(), handled) == DrawnWith(old(Now()), c, active)
    {
      var outcome := OutcomeOf(c.drawing, c.rects, c.width, c.height);
      if outcome.Drawn? {
        QueuePresent(c);
        return true;
      }
      composite := AfterDrawing(composite, c.width, c.height, c.rects, queued, outcome);
      if !active {
        ClearPendingPresent();
        composite := Gone();
        return false;
      }
      handled := Fail(active);
    }

    method DecodeAndQueue(c: Command, active: bool) returns (handled: bool)
      modifies this
      ensures (Now(), handled) == DecodedWith(old(Now()), c, active)
    {
      if !c.decoderReady {
        handled := Fail(active);
        return;
      }
      if c.decode != Decoded {
        if !active {
          return false;
        }
        if c.decode == NoOutput {
          handled := ApplyActiveUpdatePolicy(false);
        } else {
          handled := Fail(active);
        }
        return;
      }
      handled := DrawAndQueue(c, active);
    }

    method ProcessCommand(c: Command, active: bool) returns (handled: bool)
      modifies this
      ensures (Now(), handled) == Processed(old(Now()), c, active)
    {
      if !c.acceptable {
        return false;
      }
      if c.importSkipped && !active {
        return false;
      }
      if !c.offscreenReady {
        if !active {
          return false;
        }
        handled := Fail(active);
        return;
      }
      if !c.hasParameterSets {
        if active {
          handled := ApplyActiveUpdatePolicy(true);
          return;
        }
        return false;
      }
      if pending && (pendingWidth != c.width || pendingHeight != c.height) {
        ClearPendingPresent();
      }
      handled := DecodeAndQueue(c, active);
    }

    method ProcessGdiFrame(f: GdiFrame, active: bool)
      modifies this
      ensures Now() == WithGdi(old(Now()), f, active)
    {
      if !active || !f.valid {
        return;
      }
      if !f.offscreenReady {
        failures := failures + 1;
        return;
      }
      var outcome := OutcomeOf(f.drawing, [BackgroundRect(f)], f.width, f.height);
      composite := AfterDrawing(composite, f.width, f.height, [BackgroundRect(f)], -1, outcome);
      if !outcome.Drawn? {
        failures := failures + 1;
        return;
      }
      gdiUpdates := gdiUpdates + 1;
      gdiPending := true;
      currentWidth, currentHeight := f.width, f.height;
    }

    /** The shared end of both GDI-only presents; the immediate one checks for a pending update, the one at an
        EndFrame is only reached without one. */
    method PresentGdiBackground(o: Output, active: bool) returns (shown: bool)
      modifies this
      ensures Now() == GdiPresented(old(Now()), o, active) && shown == ShowsGdiAlone(old(Now()), o, active)
    {
      if !active || !gdiPending || pending || currentWidth == 0 || currentHeight == 0 {
        return false;
      }
      if !o.targetReady {
        ignored := ignored + 1;
        return false;
      }
      if !o.windowReady {
        failures := failures + 1;
        return false;
      }
      if !o.presentOk || !composite.ready {
        failures := failures + 1;
        ignored := ignored + 1;
        return false;
      }
      gdiPresents := gdiPresents + 1;
      gdiPending := false;
      presented := presented + 1;
      shown := true;
    }

    method PresentQueuedUpdate(f: EndFrame, active: bool) returns (shown: bool)
      requires pending
      modifies this
      ensures Now() == UpdateEnded(old(Now()), f, active) && shown == ShowsUpdate(old(Now()), f)
    {
      if !f.matched || f.frameId != pendingFrameId {
        mismatches := mismatches + 1;
        ignored := ignored + 1;
        ClearPendingPresent();
        return false;
      }
      if !f.output.targetReady {
        ignored := ignored + 1;
        if active {
          return false;
        }
        failures := failures + 1;
        ClearPendingPresent();
        return false;
      }
      if !f.output.windowReady {
        failures := failures + 1;
        return false;
      }
      if !f.output.presentOk || !composite.ready {
        failures := failures + 1;
        ignored := ignored + 1;
        ClearPendingPresent();
        return false;
      }
      if gdiPending {
        gdiPresents := gdiPresents + 1;
        gdiPending := false;
      }
      ClearPendingPresent();
      presented := presented + 1;
      shown := true;
    }

    method PresentEndFrame(f: EndFrame, active: bool) returns (shown: bool)
      modifies this
      ensures Now() == Ended(old(Now()), f, active)
      ensures shown == (ShowsUpdate(old(Now()), f) || (f.matched && ShowsGdiAlone(old(Now()), f.output, active)))
    {
      if !pending {
        if f.matched {
          shown := PresentGdiBackground(f.output, active);
        } else {
          shown := false;
        }
        return;
      }
      shown := PresentQueuedUpdate(f, active);
    }

    method OnSurfaceTargetChanged(o: Output, active: bool) returns (shown: bool)
      modifies this
      ensures Now() == Retargeted(old(Now()), o, active) && shown == ShowsAgain(old(Now()), o, active)
    {
      if !active || !o.targetReady {
        return false;
      }
      var width := if pendingWidth != 0 then pendingWidth else currentWidth;
      var height := if pendingHeight != 0 then pendingHeight else currentHeight;
      if width == 0 || height == 0 {
        return false;
      }
      if !o.windowReady || !o.presentOk || !composite.ready {
        failures := failures + 1;
        return false;
      }
      if gdiPending {
        gdiPresents := gdiPresents + 1;
        gdiPending := false;
      }
      ClearPendingPresent();
      presented := presented + 1;
      shown := true;
    }
  }

  // ---- Runs ----

  datatype Step =
    | Process(command: Command, active: bool)
    | Gdi(frame: GdiFrame, active: bool)
    | GdiNow(output: Output, active: bool)
    | End(end: EndFrame, active: bool)
    | Retarget(output: Output, active: bool)
    | Reset

  datatype Trigger = AtEndFrame(end: EndFrame) | OnTarget | GdiAlone

  /** A present of the composite. `update` is the pending update it was for, or -1. */
  datatype Showing = Showing(trigger: Trigger, update: int, picture: Picture)

  /** The composite presented holds a pixel of the update. */
  ghost predicate Shows(shown: Showing, u: nat) { exists x: nat, y: nat :: shown.picture(x, y) == u }

  /** Since the last reset: the updates queued, what was shown, and the pending updates overwritten and given up. */
  datatype World = World(s: State, updates: seq<Command>, showings: seq<Showing>, overwritten: seq<nat>, lost: seq<nat>)

  function Start(): World { World(Fresh(), [], [], [], []) }

  function StateAfter(s: State, step: Step): State {
    match step
    case Process(c, active) => Processed(s, c, active).0
    case Gdi(f, active) => WithGdi(s, f, active)
    case GdiNow(o, active) => GdiPresented(s, o, active)
    case End(f, active) => Ended(s, f, active)
    case Retarget(o, active) => Retargeted(s, o, active)
    case Reset => Fresh()
  }

  function PendingUpdate(s: State): int { if s.pending then s.queued - 1 else -1 }

  function ShowingOf(s: State, trigger: Trigger): Showing { Showing(trigger, PendingUpdate(s), s.composite.picture) }

  function Shown(s: State, step: Step): seq<Showing> {
    match step
    case GdiNow(o, active) => if ShowsGdiAlone(s, o, active) then [ShowingOf(s, GdiAlone)] else []
    case End(f, active) =>
      if ShowsUpdate(s, f) then [ShowingOf(s, AtEndFrame(f))]
      else if f.matched && ShowsGdiAlone(s, f.output, active) then [ShowingOf(s, GdiAlone)] else []
    case Retarget(o, active) => if ShowsAgain(s, o, active) then [ShowingOf(s, OnTarget)] else []
    case _ => []
  }

  predicate Queues(s: State, step: Step) { step.Process? && StateAfter(s, step).queued > s.queued }

  predicate Overwrites(s: State, step: Step) { 0 < s.queued && StateAfter(s, step).overwrites > s.overwrites }

  /** Whether a step gives up a pending update: it had one, and neither keeps it, shows it, nor overwrites it. */
  predicate GivesUp(s: State, step: Step) {
    var s' := StateAfter(s, step);
    s.pending && 0 < s.queued && |Shown(s, step)| == 0 && s'.overwrites == s.overwrites
    && !(s'.pending && s'.queued == s.queued)
  }

  function Next(w: World, step: Step): World {
    if step.Reset? then Start()
    else World(StateAfter(w.s, step),
               w.updates + if Queues(w.s, step) then [step.command] else [],
               w.showings + Shown(w.s, step),
               w.overwritten + if Overwrites(w.s, step) then [w.s.queued - 1] else [],
               w.lost + if GivesUp(w.s, step) then [w.s.queued - 1] else [])
  }

  function After(steps: seq<Step>): World {
    if steps == [] then Start() else Next(After(steps[..|steps| - 1]), steps[|steps| - 1])
  }

  function At(steps: seq<Step>, n: nat): World
    requires n <= |steps|
  {
    After(steps[..n])
  }

  lemma AtStep(steps: seq<Step>, n: nat)
    requires n < |steps|
    ensures At(steps, n + 1) == Next(At(steps, n), steps[n])
  {
    assert steps[..n + 1][..n] == steps[..n];
  }

  function Bit(b: bool): nat { if b then 1 else 0 }

  /** Presents that were for no pending update. */
  function Extra(showings: seq<Showing>): nat {
    if |showings| == 0 then 0
    else Extra(showings[..|showings| - 1]) + Bit(showings[|showings| - 1].update < 0)
  }

  // ---- What every run keeps ----

  predicate GdiBalanced(s: State) { s.gdiPresents + Bit(s.gdiPending) <= s.gdiUpdates }

  /** Every queued update is presented, overwritten, given up, or pending; presents without one are counted apart. */
  predicate Balanced(w: World) {
    && w.s.presented == |w.showings| && w.s.overwrites == |w.overwritten|
    && w.s.presented + w.s.overwrites + |w.lost| + Bit(w.s.pending) == w.s.queued + Extra(w.showings)
  }

  predicate PendingIsLatest(w: World) {
    && |w.updates| == w.s.queued
    && (w.s.pending ==> 0 < w.s.queued && w.s.pendingFrameId == w.updates[w.s.queued - 1].frameId)
  }

  predicate WasPresented(showings: seq<Showing>, u: int) { exists j | 0 <= j < |showings| :: showings[j].update == u }

  predicate IsOver(w: World, u: nat) { WasPresented(w.showings, u) || u in w.overwritten || u in w.lost }

  /** Every update but the pending one has been presented, overwritten or given up. */
  predicate OthersAreOver(w: World) { forall u: nat | u < w.s.queued - Bit(w.s.pending) :: IsOver(w, u) }

  predicate Rising(showings: seq<Showing>) {
    forall j, k | 0 <= j < k < |showings| && showings[j].update >= 0 && showings[k].update >= 0 ::
      showings[j].update < showings[k].update
  }

  predicate ShowingIsSound(w: World, j: nat)
    requires j < |w.showings|
  {
    var shown := w.showings[j];
    && -1 <= shown.update < |w.updates| - Bit(w.s.pending)
    && (shown.trigger.AtEndFrame? ==>
          && shown.update >= 0 && shown.trigger.end.matched
          && shown.trigger.end.frameId == w.updates[shown.update].frameId)
    && (shown.trigger.GdiAlone? ==> shown.update == -1)
  }

  predicate Inv(w: World) {
    && GdiBalanced(w.s) && Balanced(w) && PendingIsLatest(w) && OthersAreOver(w) && Rising(w.showings)
    && forall j | 0 <= j < |w.showings| :: ShowingIsSound(w, j)
  }

  /** What a command may do: queue at most one update, over the pending one or not, or give the pending one up;
      presents are left alone. */
  predicate CommandEffect(s: State, s': State, c: Command) {
    && s'.presented == s.presented && s'.gdiPresents == s.gdiPresents && s'.gdiUpdates == s.gdiUpdates
    && s'.gdiPending == s.gdiPending
    && (if s'.queued == s.queued then
          s'.overwrites == s.overwrites && (s'.pending ==> s.pending && s'.pendingFrameId == s.pendingFrameId)
        else
          && s'.queued == s.queued + 1 && s'.pending && s'.pendingFrameId == c.frameId
          && (s'.overwrites == s.overwrites + Bit(s.pending) || (s.pending && s'.overwrites == s.overwrites)))
  }

  lemma DrawnWithEffect(s: State, c: Command, active: bool)
    ensures CommandEffect(s, DrawnWith(s, c, active).0, c)
  {
  }

  lemma DecodedWithEffect(s: State, c: Command, active: bool)
    ensures CommandEffect(s, DecodedWith(s, c, active).0, c)
  {
    DrawnWithEffect(s, c, active);
  }

  lemma ProcessedEffect(s: State, c: Command, active: bool)
    ensures CommandEffect(s, Processed(s, c, active).0, c)
  {
    DecodedWithEffect(s, c, active);
    DecodedWithEffect(Cleared(s), c, active);
  }

  /** What the other steps may do: show something and clear, give up at most the pending update, or draw a
      background. */
  predicate PresentEffect(s: State, step: Step) {
    var s', shown := StateAfter(s, step), Shown(s, step);
    && |shown| <= 1 && s'.presented == s.presented + |shown| && s'.queued == s.queued && s'.overwrites == s.overwrites
    && (if |shown| == 0 then
          (s'.pending ==> s.pending && s'.pendingFrameId == s.pendingFrameId)
        else
          && !s'.pending && shown[0].update == PendingUpdate(s)
          && (shown[0].trigger.AtEndFrame? ==>
                s.pending && shown[0].trigger.end.matched && shown[0].trigger.end.frameId == s.pendingFrameId)
          && (shown[0].trigger.GdiAlone? ==> !s.pending))
    && (GdiBalanced(s) ==> GdiBalanced(s'))
  }

  lemma GdiStepsEffect(s: State, step: Step)
    requires step.Gdi? || step.GdiNow?
    ensures PresentEffect(s, step)
  {
  }

  lemma EndEffect(s: State, f: EndFrame, active: bool)
    ensures PresentEffect(s, End(f, active))
  {
  }

  lemma RetargetEffect(s: State, o: Output, active: bool)
    ensures PresentEffect(s, Retarget(o, active))
  {
  }

  /** The two kinds of effect, as far as the counters and the lists go. */
  ghost predicate Moves(w: World, w': World, more: seq<Showing>, over: seq<nat>, lost: seq<nat>, queued: seq<Command>) {
    && w'.updates == w.updates + queued && w'.showings == w.showings + more
    && w'.overwritten == w.overwritten + over && w'.lost == w.lost + lost
    && |more| + |over| + |lost| <= 1 && |queued| <= 1
    && w'.s.presented == w.s.presented + |more| && w'.s.overwrites == w.s.overwrites + |over|
    && w'.s.queued == w.s.queued + |queued|
    && (|more| == 1 ==> more[0].update == PendingUpdate(w.s))
    && (|over| == 1 ==> w.s.pending && over[0] == w.s.queued - 1)
    && (|lost| == 1 ==> w.s.pending && lost[0] == w.s.queued - 1)
    && w'.s.pending == (|queued| == 1 || (w.s.pending && |more| + |over| + |lost| == 0))
    && (|queued| == 1 && w.s.pending ==> |over| + |lost| == 1)
  }

  lemma CommandMoves(w: World, c: Command, active: bool)
    requires PendingIsLatest(w)
    ensures var step := Process(c, active);
            Moves(w, Next(w, step), [], if Overwrites(w.s, step) then [w.s.queued - 1] else [],
                  if GivesUp(w.s, step) then [w.s.queued - 1] else [], if Queues(w.s, step) then [c] else [])
  {
    ProcessedEffect(w.s, c, active);
    assert Shown(w.s, Process(c, active)) == [];
  }

  lemma OthersMove(w: World, step: Step)
    requires PendingIsLatest(w) && !step.Process? && !step.Reset? && PresentEffect(w.s, step)
    ensures Moves(w, Next(w, step), Shown(w.s, step), [], if GivesUp(w.s, step) then [w.s.queued - 1] else [], [])
  {
  }

  lemma ExtraOfOneMore(showings: seq<Showing>, more: seq<Showing>)
    requires |more| <= 1
    ensures Extra(showings + more) == Extra(showings) + Bit(|more| == 1 && more[0].update < 0)
  {
    if |more| == 0 {
      assert showings + more == showings;
    } else {
      assert (showings + more)[..|showings|] == showings;
    }
  }

  lemma MovesKeepBalance(w: World, w': World, more: seq<Showing>, over: seq<nat>, lost: seq<nat>, queued: seq<Command>)
    requires Balanced(w) && PendingIsLatest(w) && Moves(w, w', more, over, lost, queued)
    ensures Balanced(w')
  {
    ExtraOfOneMore(w.showings, more);
  }

  lemma MovesKeepOver(w: World, w': World, more: seq<Showing>, over: seq<nat>, lost: seq<nat>, queued: seq<Command>,
                      u: nat)
    requires OthersAreOver(w) && Moves(w, w', more, over, lost, queued) && u < w'.s.queued - Bit(w'.s.pending)
    ensures IsOver(w', u)
  {
    if u < w.s.queued - Bit(w.s.pending) {
      assert IsOver(w, u);
      if WasPresented(w.showings, u) {
        var j :| 0 <= j < |w.showings| && w.showings[j].update == u;
        assert w'.showings[j].update == u;
      }
    } else {
      assert w.s.pending && u == w.s.queued - 1;
      if |more| == 1 { assert w'.showings[|w.showings|].update == u; }
      if |over| == 1 { assert w'.overwritten[|w.overwritten|] == u; }
      if |lost| == 1 { assert w'.lost[|w.lost|] == u; }
    }
  }

  lemma MovesKeepRising(w: World, w': World, more: seq<Showing>, over: seq<nat>, lost: seq<nat>, queued: seq<Command>)
    requires PendingIsLatest(w) && Rising(w.showings) && Moves(w, w', more, over, lost, queued)
    requires forall j | 0 <= j < |w.showings| :: ShowingIsSound(w, j)
    ensures Rising(w'.showings)
  {
    forall j, k | 0 <= j < k < |w'.showings| && w'.showings[j].update >= 0 && w'.showings[k].update >= 0
      ensures w'.showings[j].update < w'.showings[k].update
    {
      assert ShowingIsSound(w, j);
    }
  }

  lemma MovesKeepSound(w: World, w': World, more: seq<Showing>, over: seq<nat>, lost: seq<nat>, queued: seq<Command>,
                       j: nat)
    requires PendingIsLatest(w) && Moves(w, w', more, over, lost, queued) && j < |w'.showings|
    requires j < |w.showings| ==> ShowingIsSound(w, j)
    requires |more| == 1 ==>
               && (more[0].trigger.AtEndFrame? ==>
                     && w.s.pending && more[0].trigger.end.matched
                     && more[0].trigger.end.frameId == w.s.pendingFrameId)
               && (more[0].trigger.GdiAlone? ==> !w.s.pending)
    ensures ShowingIsSound(w', j)
  {
    assert w.updates <= w'.updates;
  }

  lemma CommandKeepsInv(w: World, c: Command, active: bool)
    requires Inv(w)
    ensures Inv(Next(w, Process(c, active)))
  {
    var step := Process(c, active);
    var w' := Next(w, step);
    var over := if Overwrites(w.s, step) then [w.s.queued - 1] else [];
    var lost := if GivesUp(w.s, step) then [w.s.queued - 1] else [];
    var queued := if Queues(w.s, step) then [c] else [];
    ProcessedEffect(w.s, c, active);
    CommandMoves(w, c, active);
    MovesKeepInv(w, w', [], over, lost, queued);
  }

  lemma MovesKeepInv(w: World, w': World, more: seq<Showing>, over: seq<nat>, lost: seq<nat>, queued: seq<Command>)
    requires Inv(w) && Moves(w, w', more, over, lost, queued) && GdiBalanced(w'.s) && PendingIsLatest(w')
    requires |more| == 1 ==>
               && (more[0].trigger.AtEndFrame? ==>
                     && w.s.pending && more[0].trigger.end.matched
                     && more[0].trigger.end.frameId == w.s.pendingFrameId)
               && (more[0].trigger.GdiAlone? ==> !w.s.pending)
    ensures Inv(w')
  {
    MovesKeepBalance(w, w', more, over, lost, queued);
    MovesKeepRising(w, w', more, over, lost, queued);
    forall u: nat | u < w'.s.queued - Bit(w'.s.pending) ensures IsOver(w', u) {
      MovesKeepOver(w, w', more, over, lost, queued, u);
    }
    forall j | 0 <= j < |w'.showings| ensures ShowingIsSound(w', j) {
      MovesKeepSound(w, w', more, over, lost, queued, j);
    }
  }

  lemma OtherStepsEffect(s: State, step: Step)
    requires !step.Process? && !step.Reset?
    ensures PresentEffect(s, step)
  {
    if step.End? {
      EndEffect(s, step.end, step.active);
    } else if step.Retarget? {
      RetargetEffect(s, step.output, step.active);
    } else {
      GdiStepsEffect(s, step);
    }
  }

  lemma OtherStepsKeepInv(w: World, step: Step)
    requires Inv(w) && !step.Process? && !step.Reset?
    ensures Inv(Next(w, step))
  {
    OtherStepsEffect(w.s, step);
    OthersMove(w, step);
    var lost := if GivesUp(w.s, step) then [w.s.queued - 1] else [];
    MovesKeepInv(w, Next(w, step), Shown(w.s, step), [], lost, []);
  }

  lemma StepKeepsInv(w: World, step: Step)
    requires Inv(w)
    ensures Inv(Next(w, step))
  {
    if step.Process? {
      CommandKeepsInv(w, step.command, step.active);
    } else if !step.Reset? {
      OtherStepsKeepInv(w, step);
    }
  }

  lemma {:induction false} RunKeepsInv(steps: seq<Step>)
    ensures Inv(After(steps))
  {
    if steps != [] {
      RunKeepsInv(steps[..|steps| - 1]);
      StepKeepsInv(After(steps[..|steps| - 1]), steps[|steps| - 1]);
    }
  }

  /** Over any run: GDI-background presents, plus one while one is pending, never exceed the backgrounds taken; and
      a background is never shown alone while an update is pending. */
  lemma GdiPresentsNeverExceedUpdates(steps: seq<Step>)
    ensures var w := After(steps);
            && w.s.gdiPresents + Bit(w.s.gdiPending) <= w.s.gdiUpdates
            && (forall j | 0 <= j < |w.showings| && w.showings[j].trigger.GdiAlone? :: w.showings[j].update == -1)
  {
    RunKeepsInv(steps);
    var w := After(steps);
    forall j | 0 <= j < |w.showings| ensures ShowingIsSound(w, j) {}
  }

  /** Over any run, every update queued since the last reset is presented, overwritten, given up, or pending, and
      what was presented beyond the updates is exactly the presents that carried none. */
  lemma UpdatesAreConserved(steps: seq<Step>)
    ensures var w := After(steps);
            && w.s.presented == |w.showings| && w.s.overwrites == |w.overwritten|
            && w.s.presented - Extra(w.showings) + w.s.overwrites + |w.lost| + Bit(w.s.pending) == w.s.queued
            && forall u: nat | u < w.s.queued - Bit(w.s.pending) :: IsOver(w, u)
  {
    RunKeepsInv(steps);
  }

  /** Over any run, every update has at most one present of its own. */
  lemma EachUpdateHasOnePresent(steps: seq<Step>, j: nat, k: nat)
    requires j < k < |After(steps).showings|
    requires After(steps).showings[j].update >= 0 && After(steps).showings[k].update >= 0
    ensures After(steps).showings[j].update < After(steps).showings[k].update
  {
    RunKeepsInv(steps);
  }

  /** It is one at a matched EndFrame with the update's own frame id, or on a new target while it was pending. */
  lemma PresentsAreMatched(steps: seq<Step>, j: nat)
    requires j < |After(steps).showings|
    ensures var w, shown := After(steps), After(steps).showings[j];
            && -1 <= shown.update < |w.updates|
            && (shown.update < 0 ==> !shown.trigger.AtEndFrame?)
            && (shown.update >= 0 ==> !shown.trigger.GdiAlone?)
            && (shown.trigger.AtEndFrame? ==>
                  shown.trigger.end.matched && shown.trigger.end.frameId == w.updates[shown.update].frameId)
  {
    RunKeepsInv(steps);
    assert ShowingIsSound(After(steps), j);
  }

  /** Presents, overwrites and the pending update stay within the updates queued exactly when the presents that were
      for no update are no more than the updates given up. */
  lemma PresentsWithinUpdatesExactlyWhen(steps: seq<Step>)
    ensures var w := After(steps);
            w.s.presented + w.s.overwrites + Bit(w.s.pending) <= w.s.queued <==> Extra(w.showings) <= |w.lost|
  {
    RunKeepsInv(steps);
  }

  /** No present of the run was for nothing pending: neither a retained composite on a new target, nor a background
      alone. */
  predicate OnlyUpdatesShown(steps: seq<Step>) {
    forall n: nat | n < |steps| :: |Shown(At(steps, n).s, steps[n])| == 0 || At(steps, n).s.pending
  }

  lemma NothingExtraInAStep(w: World, step: Step)
    requires Inv(w) && Extra(w.showings) == 0 && (|Shown(w.s, step)| == 0 || w.s.pending)
    ensures Extra(Next(w, step).showings) == 0
  {
    if !step.Reset? {
      ExtraOfOneMore(w.showings, Shown(w.s, step));
    }
  }

  lemma {:induction false} NothingExtra(steps: seq<Step>, n: nat)
    requires OnlyUpdatesShown(steps) && n <= |steps|
    ensures Extra(At(steps, n).showings) == 0
  {
    if n > 0 {
      NothingExtra(steps, n - 1);
      AtStep(steps, n - 1);
      RunKeepsInv(steps[..n - 1]);
      NothingExtraInAStep(At(steps, n - 1), steps[n - 1]);
    }
  }

  /** So they do in runs in which every present was for a pending update. */
  lemma PresentsNeverExceedUpdates(steps: seq<Step>)
    requires OnlyUpdatesShown(steps)
    ensures var s := After(steps).s;
            s.presented + s.overwrites + Bit(s.pending) <= s.queued
  {
    PresentsWithinUpdatesExactlyWhen(steps);
    NothingExtra(steps, |steps|);
    assert steps[..|steps|] == steps;
  }
}
