/** When a composed AVC444 update reaches the screen (surface/avc444_gpu_compositor_state.cpp). Decoding, drawing
    and presenting are foreign calls; their outcomes are parameters. */
module Avc444PendingPresent {

  datatype DecodeResult = Decoded | NoOutput | DecodeFailed

  /** The outcomes for one H.264 stream of a command. */
  datatype Stream = Stream(hasParameterSets: bool, decoderReady: bool, decode: DecodeResult, mapped: bool,
                           applied: bool)

  /** `lc` is 0 for luma and chroma, 1 for luma only, 2 for chroma only. */
  datatype Command = Command(supported: bool, rectsValid: bool, frameId: nat, width: nat, height: nat, lc: nat,
                             dirtyRects: nat, offscreenReady: bool, luma: Stream, chroma: Stream, complete: bool)

  datatype EndFrame = EndFrame(frameId: nat, matched: bool, targetReady: bool, windowReady: bool, presentOk: bool)

  datatype State = State(pending: bool, pendingFrameId: nat, pendingWidth: nat, pendingHeight: nat,
                         queued: nat, presented: nat, overwrites: nat, failures: nat, ignored: nat, mismatches: nat)

  function Fresh(): State { State(false, 0, 0, 0, 0, 0, 0, 0, 0, 0) }

  // ---- The state after each operation ----

  function Cleared(s: State): State {
    s.(pending := false, pendingFrameId := 0, pendingWidth := 0, pendingHeight := 0)
  }

  function Ignored(s: State): State { Cleared(s).(ignored := s.ignored + 1) }

  /** A failed update: dropped while the GPU owns the output, left alone before. */
  function Failed(s: State, active: bool): State {
    var counted := s.(failures := s.failures + 1);
    if active then Ignored(counted) else counted
  }

  datatype Verdict = Passed | LeftAlone | Dropped | FailedUpdate

  function DecodeVerdict(stream: Stream, active: bool): Verdict {
    if !stream.hasParameterSets then if active then Dropped else LeftAlone
    else if !stream.decoderReady then FailedUpdate
    else if stream.decode == Decoded then Passed
    else if active then Dropped else LeftAlone
  }

  function DrawVerdict(stream: Stream, active: bool): Verdict {
    if stream.mapped && stream.applied then Passed else if active then FailedUpdate else LeftAlone
  }

  function Then(first: Verdict, second: Verdict): Verdict { if first.Passed? then second else first }

  /** The way a command goes, stage by stage. */
  function CommandVerdict(c: Command, active: bool): Verdict {
    var luma, chroma := c.lc == 0 || c.lc == 1, c.lc == 0 || c.lc == 2;
    if !c.supported || !c.rectsValid then LeftAlone
    else if (luma || chroma) && !c.offscreenReady then if active then FailedUpdate else LeftAlone
    else
      var decoded := Then(if luma then DecodeVerdict(c.luma, active) else Passed,
                          if chroma then DecodeVerdict(c.chroma, active) else Passed);
      var drawn := Then(if luma then DrawVerdict(c.luma, active) else Passed,
                        if chroma then DrawVerdict(c.chroma, active) else Passed);
      var ready := if c.complete then Passed else if active then Dropped else LeftAlone;
      Then(decoded, if c.dirtyRects == 0 then LeftAlone else Then(drawn, ready))
  }

  function Queued(s: State, c: Command): State {
    s.(pending := true, pendingFrameId := c.frameId, pendingWidth := c.width, pendingHeight := c.height,
       queued := s.queued + 1, overwrites := s.overwrites + if s.pending then 1 else 0)
  }

  function Processed(s: State, c: Command, active: bool): State {
    match CommandVerdict(c, active)
    case Passed => Queued(s, c)
    case LeftAlone => s
    case Dropped => Ignored(s)
    case FailedUpdate => Failed(s, active)
  }

  /** An EndFrame puts the pending update on the screen only if it is its own and everything works. */
  predicate Shows(s: State, f: EndFrame) {
    && s.pending && f.matched && f.frameId == s.pendingFrameId
    && s.pendingWidth != 0 && s.pendingHeight != 0
    && f.targetReady && f.windowReady && f.presentOk
  }

  function Ended(s: State, f: EndFrame): State {
    if !s.pending then s
    else if Shows(s, f) then Cleared(s).(presented := s.presented + 1)
    else if !f.matched || f.frameId != s.pendingFrameId then Ignored(s).(mismatches := s.mismatches + 1)
    else Ignored(s).(failures := s.failures + 1)
  }

  // ---- The operations ----

  class Compositor {
    var pending: bool
    var pendingFrameId: nat
    var pendingWidth: nat
    var pendingHeight: nat
    var queued: nat
    var presented: nat
    var overwrites: nat
    var failures: nat
    var ignored: nat
    var mismatches: nat

    ghost function Now(): State
      reads this
    {
      State(pending, pendingFrameId, pendingWidth, pendingHeight, queued, presented, overwrites, failures, ignored,
            mismatches)
    }

    constructor ()
      ensures Now() == Fresh()
    {
      pending, pendingFrameId, pendingWidth, pendingHeight := false, 0, 0, 0;
      queued, presented, overwrites, failures, ignored, mismatches := 0, 0, 0, 0, 0, 0;
    }

    method Destroy()
      modifies this
      ensures Now() == Fresh()
    {
      queued, presented, failures, ignored, mismatches, overwrites := 0, 0, 0, 0, 0, 0;
      pending, pendingFrameId, pendingWidth, pendingHeight := false, 0, 0, 0;
    }

    method IgnoreUpdate()
      modifies this
      ensures Now() == Ignored(old(Now()))
    {
      ignored := ignored + 1;
      pending, pendingFrameId, pendingWidth, pendingHeight := false, 0, 0, 0;
    }

    method Fail(active: bool) returns (handled: bool)
      modifies this
      ensures Now() == Failed(old(Now()), active) && handled == active
    {
      failures := failures + 1;
      if active {
        IgnoreUpdate();
      }
      handled := active;
    }

    /** The decode stage of one stream; `go` says whether the command goes on. */
    method DecodeStream(stream: Stream, active: bool) returns (go: bool)
      modifies this
      ensures go == DecodeVerdict(stream, active).Passed?
      ensures Now() == match DecodeVerdict(stream, active)
                       case Dropped => Ignored(old(Now()))
                       case FailedUpdate => Failed(old(Now()), active)
                       case _ => old(Now())
    {
      if !stream.hasParameterSets {
        if active {
          IgnoreUpdate();
        }
        return false;
      }
      if !stream.decoderReady {
        var handled := Fail(active);
        return false;
      }
      if stream.decode != Decoded {
        if active {
          IgnoreUpdate();
        }
        return false;
      }
      go := true;
    }

    method DrawStream(stream: Stream, active: bool) returns (go: bool)
      modifies this
      ensures go == DrawVerdict(stream, active).Passed?
      ensures Now() == if DrawVerdict(stream, active).FailedUpdate? then Failed(old(Now()), active) else old(Now())
    {
      if !stream.mapped || !stream.applied {
        if active {
          var handled := Fail(active);
        }
        return false;
      }
      go := true;
    }

    method Decode(c: Command, active: bool) returns (go: bool)
      modifies this
      ensures var luma, chroma := c.lc == 0 || c.lc == 1, c.lc == 0 || c.lc == 2;
              var verdict := Then(if luma then DecodeVerdict(c.luma, active) else Passed,
                                  if chroma then DecodeVerdict(c.chroma, active) else Passed);
              && go == verdict.Passed?
              && Now() == match verdict
                          case Dropped => Ignored(old(Now()))
                          case FailedUpdate => Failed(old(Now()), active)
                          case _ => old(Now())
    {
      go := true;
      if c.lc == 0 || c.lc == 1 {
        go := DecodeStream(c.luma, active);
      }
      if go && (c.lc == 0 || c.lc == 2) {
        go := DecodeStream(c.chroma, active);
      }
    }

    method Draw(c: Command, active: bool) returns (go: bool)
      modifies this
      ensures var luma, chroma := c.lc == 0 || c.lc == 1, c.lc == 0 || c.lc == 2;
              var verdict := Then(if luma then DrawVerdict(c.luma, active) else Passed,
                                  if chroma then DrawVerdict(c.chroma, active) else Passed);
              go == verdict.Passed? && Now() == if verdict.FailedUpdate? then Failed(old(Now()), active) else old(Now())
    {
      go := true;
      if c.lc == 0 || c.lc == 1 {
        go := DrawStream(c.luma, active);
      }
      if go && (c.lc == 0 || c.lc == 2) {
        go := DrawStream(c.chroma, active);
      }
    }

    method ProcessCommand(c: Command, active: bool)
      modifies this
      ensures Now() == Processed(old(Now()), c, active)
    {
      if !c.supported || !c.rectsValid {
        return;
      }
      if c.lc <= 2 && !c.offscreenReady {
        if active {
          var handled := Fail(active);
        }
        return;
      }
      var go := Decode(c, active);
      if !go || c.dirtyRects == 0 {
        return;
      }
      go := Draw(c, active);
      if !go {
        return;
      }
      if !c.complete {
        if active {
          IgnoreUpdate();
        }
        return;
      }
      if pending {
        overwrites := overwrites + 1;
      }
      pending := true;
      pendingFrameId := c.frameId;
      pendingWidth := c.width;
      pendingHeight := c.height;
      queued := queued + 1;
    }

    method PresentEndFrame(f: EndFrame) returns (shown: bool)
      modifies this
      ensures Now() == Ended(old(Now()), f) && shown == Shows(old(Now()), f)
    {
      if !pending {
        return false;
      }
      if !f.matched || f.frameId != pendingFrameId {
        mismatches := mismatches + 1;
        IgnoreUpdate();
        return false;
      }
      if pendingWidth == 0 || pendingHeight == 0 || !f.targetReady || !f.windowReady || !f.presentOk {
        failures := failures + 1;
        IgnoreUpdate();
        return false;
      }
      pending, pendingFrameId, pendingWidth, pendingHeight := false, 0, 0, 0;
      presented := presented + 1;
      shown := true;
    }
  }

  // ---- Runs ----

  datatype Step = Process(command: Command, active: bool) | End(frame: EndFrame) | Reset

  datatype Showing = Showing(update: int, frame: EndFrame)

  /** `updates` are all the updates ever queued, `showings` what was put on the screen, `dropped` the updates given
      up since the last reset. */
  datatype World = World(s: State, updates: seq<Command>, showings: seq<Showing>, dropped: nat)

  function Start(): World { World(Fresh(), [], [], 0) }

  function Next(w: World, step: Step): World {
    match step
    case Process(c, active) =>
      var s := Processed(w.s, c, active);
      var isQueued := CommandVerdict(c, active).Passed?;
      w.(s := s, updates := w.updates + if isQueued then [c] else [],
         dropped := w.dropped + if w.s.pending && !s.pending then 1 else 0)
    case End(f) =>
      var s := Ended(w.s, f);
      if Shows(w.s, f) then w.(s := s, showings := w.showings + [Showing(|w.updates| - 1, f)])
      else w.(s := s, dropped := w.dropped + if w.s.pending then 1 else 0)
    case Reset => w.(s := Fresh(), dropped := 0)
  }

  function After(steps: seq<Step>): World {
    if steps == [] then Start() else Next(After(steps[..|steps| - 1]), steps[|steps| - 1])
  }

  /** Every update queued since the last reset is presented, overwritten, dropped, or the one pending. */
  predicate Balanced(w: World) {
    w.s.queued == w.s.presented + w.s.overwrites + w.dropped + if w.s.pending then 1 else 0
  }

  predicate IsShowingOf(w: World, j: nat)
    requires j < |w.showings|
  {
    var i, f := w.showings[j].update, w.showings[j].frame;
    && 0 <= i < |w.updates| && f.matched && f.frameId == w.updates[i].frameId
    && w.updates[i].width != 0 && w.updates[i].height != 0
    && f.targetReady && f.windowReady && f.presentOk
  }

  predicate Rising(showings: seq<Showing>) {
    forall j, k | 0 <= j < k < |showings| :: showings[j].update < showings[k].update
  }

  predicate PendingIsLatest(w: World) {
    w.s.pending ==>
      && w.updates != []
      && var c := w.updates[|w.updates| - 1];
         w.s.pendingFrameId == c.frameId && w.s.pendingWidth == c.width && w.s.pendingHeight == c.height
  }

  predicate NotShownYet(w: World) {
    forall j | 0 <= j < |w.showings| ::
      w.showings[j].update < |w.updates| - if w.s.pending then 1 else 0
  }

  predicate Inv(w: World) {
    && Balanced(w) && PendingIsLatest(w) && NotShownYet(w) && Rising(w.showings)
    && forall j | 0 <= j < |w.showings| :: IsShowingOf(w, j)
  }

  lemma StepKeepsInv(w: World, step: Step)
    requires Inv(w)
    ensures Inv(Next(w, step))
  {
    var w' := Next(w, step);
    assert w.updates <= w'.updates && w.showings <= w'.showings;
    forall j | 0 <= j < |w'.showings| ensures IsShowingOf(w', j) {
      if j < |w.showings| { assert IsShowingOf(w, j); }
    }
  }

  lemma {:induction false} RunKeepsInv(steps: seq<Step>)
    ensures Inv(After(steps))
  {
    if steps != [] {
      RunKeepsInv(steps[..|steps| - 1]);
      StepKeepsInv(After(steps[..|steps| - 1]), steps[|steps| - 1]);
    }
  }

  /** Over any run: the counters since the last reset account for every queued update; what is on the screen was
      shown at a matched EndFrame carrying the update's own frame id; and no update is shown twice. */
  lemma UpdatesAreShownAtMostOnce(steps: seq<Step>)
    ensures var w := After(steps);
            && w.s.presented + w.s.overwrites + (if w.s.pending then 1 else 0) <= w.s.queued
            && Balanced(w)
            && (forall j | 0 <= j < |w.showings| :: IsShowingOf(w, j))
            && (forall j, k | 0 <= j < k < |w.showings| :: w.showings[j].update < w.showings[k].update)
  {
    RunKeepsInv(steps);
  }

  // ---- Which commands queue and which drop ----

  predicate StreamDecodes(stream: Stream) { stream.hasParameterSets && stream.decoderReady && stream.decode.Decoded? }

  predicate StreamDraws(stream: Stream) { stream.mapped && stream.applied }

  /** LC 0 carries both views, LC 1 luma only, LC 2 chroma only; other values carry none. */
  predicate NeedsLuma(c: Command) { c.lc == 0 || c.lc == 1 }

  predicate NeedsChroma(c: Command) { c.lc == 0 || c.lc == 2 }

  predicate IsAddressed(c: Command) { c.supported && c.rectsValid }

  predicate Decodes(c: Command) {
    && (NeedsLuma(c) || NeedsChroma(c) ==> c.offscreenReady)
    && (NeedsLuma(c) ==> StreamDecodes(c.luma)) && (NeedsChroma(c) ==> StreamDecodes(c.chroma))
  }

  /** Every stream the command carries was decoded and drawn, something was dirty, and both views are there. */
  predicate IsComplete(c: Command) {
    && IsAddressed(c) && Decodes(c) && c.dirtyRects != 0
    && (NeedsLuma(c) ==> StreamDraws(c.luma)) && (NeedsChroma(c) ==> StreamDraws(c.chroma))
    && c.complete
  }

  /** The command stops at something that counts as a failure: no GPU context or no drawing while active, or a decoder
      that does not start, for the first stream that does not decode. */
  predicate StopsWithFailure(c: Command, active: bool) {
    && IsAddressed(c)
    && if (NeedsLuma(c) || NeedsChroma(c)) && !c.offscreenReady then active
       else if NeedsLuma(c) && !StreamDecodes(c.luma) then c.luma.hasParameterSets && !c.luma.decoderReady
       else if NeedsChroma(c) && !StreamDecodes(c.chroma) then c.chroma.hasParameterSets && !c.chroma.decoderReady
       else active && c.dirtyRects != 0
            && !((NeedsLuma(c) ==> StreamDraws(c.luma)) && (NeedsChroma(c) ==> StreamDraws(c.chroma)))
  }

  /** A command queues its update exactly when it is complete, whether the output is active or not. While active, one
      that is addressed but neither complete nor decoded with nothing dirty takes a pending update along; any other
      command leaves it. */
  lemma CommandDoesExactly(s: State, c: Command, active: bool)
    ensures var t := Processed(s, c, active);
            if IsComplete(c) then
              && t.pending && t.pendingFrameId == c.frameId && t.pendingWidth == c.width && t.pendingHeight == c.height
              && t.queued == s.queued + 1 && t.overwrites == s.overwrites + (if s.pending then 1 else 0)
              && t.failures == s.failures && t.ignored == s.ignored && t.presented == s.presented
            else if active && IsAddressed(c) && !(Decodes(c) && c.dirtyRects == 0) then
              !t.pending && t.queued == s.queued && t.overwrites == s.overwrites && t.ignored == s.ignored + 1
              && t.failures == s.failures + (if StopsWithFailure(c, active) then 1 else 0) && t.presented == s.presented
            else t == s.(failures := s.failures + if StopsWithFailure(c, active) then 1 else 0)
  {
  }

  // ---- Exactly when an update reaches the screen ----

  /** Nothing waits any more after an EndFrame, a reset, or an active command that fails. */
  predicate EndsWaiting(step: Step) {
    match step
    case Process(c, active) => active && IsAddressed(c) && !IsComplete(c) && !(Decodes(c) && c.dirtyRects == 0)
    case End(_) => true
    case Reset => true
  }

  /** Some command queued its update, and nothing has ended the waiting since. */
  predicate SomethingWaits(steps: seq<Step>) {
    exists q :: 0 <= q < |steps| && WaitsFrom(steps, q)
  }

  predicate WaitsFrom(steps: seq<Step>, q: nat)
    requires q < |steps|
  {
    steps[q].Process? && IsComplete(steps[q].command) && forall k | q < k < |steps| :: !EndsWaiting(steps[k])
  }

  lemma WaitsOneMore(steps: seq<Step>, step: Step)
    ensures SomethingWaits(steps + [step]) <==>
              (step.Process? && IsComplete(step.command)) || (SomethingWaits(steps) && !EndsWaiting(step))
  {
    var more, n := steps + [step], |steps|;
    if step.Process? && IsComplete(step.command) {
      assert WaitsFrom(more, n);
    } else if SomethingWaits(steps) && !EndsWaiting(step) {
      var q :| 0 <= q < |steps| && WaitsFrom(steps, q);
      assert WaitsFrom(more, q);
    }
    if SomethingWaits(more) {
      var q :| 0 <= q < |more| && WaitsFrom(more, q);
      if q < n {
        assert more[n] == step;
        assert forall k | q < k < n :: more[k] == steps[k];
        assert WaitsFrom(steps, q);
      }
    }
  }

  /** An update is pending exactly while one waits, by the steps alone. */
  lemma {:induction false} PendingExactlyWhileWaiting(steps: seq<Step>)
    ensures After(steps).s.pending <==> SomethingWaits(steps)
  {
    if steps != [] {
      var front, step := steps[..|steps| - 1], steps[|steps| - 1];
      assert steps == front + [step];
      PendingExactlyWhileWaiting(front);
      WaitsOneMore(front, step);
      if step.Process? {
        CommandDoesExactly(After(front).s, step.command, step.active);
      }
    }
  }

  /** The EndFrame belongs to the update, the update has a size, and target, window and draw all work. */
  predicate Succeeds(c: Command, f: EndFrame) {
    && f.matched && f.frameId == c.frameId && c.width != 0 && c.height != 0
    && f.targetReady && f.windowReady && f.presentOk
  }

  /** What an EndFrame does at the end of any run: when an update waits, the latest one queued, it is put on the screen
      exactly if the EndFrame is its own and everything works, and is given up otherwise, as a mismatch or as a failure;
      when none waits, nothing happens. */
  lemma EndFrameShowsExactly(steps: seq<Step>, f: EndFrame)
    ensures var w, w' := After(steps), Next(After(steps), End(f));
            if !SomethingWaits(steps) then w' == w
            else
              && w.updates != [] && !w'.s.pending
              && var c := w.updates[|w.updates| - 1];
                 var ok, own := Succeeds(c, f), f.matched && f.frameId == c.frameId;
                 && w'.showings == w.showings + (if ok then [Showing(|w.updates| - 1, f)] else [])
                 && w'.s.presented == w.s.presented + (if ok then 1 else 0)
                 && w'.s.mismatches == w.s.mismatches + (if own then 0 else 1)
                 && w'.s.failures == w.s.failures + (if own && !ok then 1 else 0)
                 && w'.s.ignored == w.s.ignored + (if ok then 0 else 1)
                 && w'.dropped == w.dropped + (if ok then 0 else 1)
  {
    PendingExactlyWhileWaiting(steps);
    RunKeepsInv(steps);
  }

  /** A command that leaves the previous update pending: exactly one that stops before it queues or drops. */
  lemma WhatCommandsDoToThePendingUpdate(s: State, c: Command, active: bool)
    requires s.pending
    ensures var s' := Processed(s, c, active);
            && (s'.overwrites > s.overwrites <==> s'.queued > s.queued)
            && (!s'.pending ==> active && s'.ignored == s.ignored + 1)
            && (s'.queued == s.queued && s'.pending ==>
                  s'.pendingFrameId == s.pendingFrameId && s'.ignored == s.ignored)
  {
  }

  /** A run begins with nothing pending, nothing shown and every count at zero. */
  lemma BeginsWithNothing()
    ensures After([]).s == State(false, 0, 0, 0, 0, 0, 0, 0, 0, 0)
    ensures After([]).updates == [] && After([]).showings == [] && After([]).dropped == 0
  {
  }

  predicate HoldsNothing(s: State) { s.pendingFrameId == 0 && s.pendingWidth == 0 && s.pendingHeight == 0 }

  /** Over any run, once nothing is pending neither frame id nor size of the last update is left. */
  lemma {:induction false} WhatIsOverIsForgotten(steps: seq<Step>)
    ensures After(steps).s.pending || HoldsNothing(After(steps).s)
  {
    if steps != [] {
      WhatIsOverIsForgotten(steps[..|steps| - 1]);
    }
  }
}
