/** The display-settings state shared by the toolbar, the resize requests and the renderers
    (session/session_display_settings.cpp). Every method is one region held under its mutex; times are in
    milliseconds. */
module SessionDisplaySettings {
  import opened DisplayResizeTypes

  const TIMEOUT: nat := 8000
  const TOLERANCE: nat := 16

  datatype Status = Idle | Multimon | Applying | DeferredStatus | WaitingFrame | Applied | TimedOut | FailedStatus
                  | UnsupportedStatus

  datatype State = State(fixed: bool, connected: bool, multimon: bool, pending: bool,
                         requestedWidth: nat, requestedHeight: nat, actualWidth: nat, actualHeight: nat,
                         generation: nat, status: Status, targetWidth: nat, targetHeight: nat,
                         resultAccepted: bool, presentedSinceBegin: bool, deadline: nat)

  function Initial(): State {
    State(false, false, false, false, 0, 0, 0, 0, 0, Idle, 0, 0, false, false, 0)
  }

  predicate Near(a: nat, b: nat) { (if a > b then a - b else b - a) < TOLERANCE }

  predicate IsFailure(status: ResizeStatus) { status.Failed? || status.Unsupported? }

  // ---- The regions as functions of the state ----

  function WasReset(s: State, connected: bool): State {
    Initial().(generation := s.generation + 1, connected := connected, multimon := s.multimon, deadline := s.deadline)
  }

  function Invalidated(s: State): State {
    s.(generation := s.generation + 1, actualWidth := 0, actualHeight := 0, pending := false, status := Idle,
       resultAccepted := false, presentedSinceBegin := false)
  }

  function WithMultimon(s: State, multimon: bool): State {
    if !multimon then s.(multimon := false)
    else s.(multimon := true, fixed := false, pending := false, requestedWidth := 0, requestedHeight := 0,
            status := Multimon, generation := s.generation + 1, resultAccepted := false, presentedSinceBegin := false)
  }

  predicate Selectable(s: State, fixed: bool, width: nat, height: nat) {
    s.connected && !s.multimon && (fixed ==> 200 <= width <= 4096 && 200 <= height <= 4096)
  }

  function Selected(s: State, fixed: bool, width: nat, height: nat): State {
    if !Selectable(s, fixed, width, height) then s
    else s.(fixed := fixed, requestedWidth := if fixed then width else 0,
            requestedHeight := if fixed then height else 0)
  }

  function Begun(s: State, width: nat, height: nat, now: nat): State {
    s.(generation := s.generation + 1, targetWidth := width, targetHeight := height, status := Applying,
       pending := true, resultAccepted := false, presentedSinceBegin := false, deadline := now + TIMEOUT)
  }

  predicate Matches(s: State) {
    && s.resultAccepted && s.presentedSinceBegin
    && Near(s.targetWidth, s.actualWidth) && Near(s.targetHeight, s.actualHeight)
  }

  function Confirmed(s: State): State { if Matches(s) then s.(pending := false, status := Applied) else s }

  function FirstNonZero(a: nat, b: nat, c: nat): nat { if a != 0 then a else if b != 0 then b else c }

  /** A result that is not a failure, before it is compared with what is on the screen. */
  function Accepted(s: State, r: ResizeResult): State {
    s.(targetWidth := FirstNonZero(r.sentWidth, r.normalizedWidth, s.targetWidth),
       targetHeight := FirstNonZero(r.sentHeight, r.normalizedHeight, s.targetHeight),
       resultAccepted := true,
       status := if r.status.Deferred? then DeferredStatus else WaitingFrame,
       presentedSinceBegin := s.presentedSinceBegin || KnownPresent(s, r))
  }

  function WithResult(s: State, generation: nat, r: ResizeResult): State {
    if generation != s.generation then s
    else if IsFailure(r.status) then
      s.(pending := false, status := if r.status.Failed? then FailedStatus else UnsupportedStatus)
    else Confirmed(Accepted(s, r))
  }

  /** An Unchanged result counts as presented when some presentation is known. */
  predicate KnownPresent(s: State, r: ResizeResult) {
    r.status.Unchanged? && s.actualWidth != 0 && s.actualHeight != 0
  }

  predicate IsCurrent(s: State, generation: nat, width: nat, height: nat) {
    generation == s.generation && width != 0 && height != 0
  }

  function WithPresented(s: State, generation: nat, width: nat, height: nat): State {
    if !IsCurrent(s, generation, width, height) then s
    else Confirmed(s.(actualWidth := width, actualHeight := height, presentedSinceBegin := true))
  }

  function Expired(s: State, now: nat): State {
    if s.pending && now >= s.deadline then s.(pending := false, status := TimedOut) else s
  }

  class Settings {
    var fixed: bool
    var connected: bool
    var multimon: bool
    var pending: bool
    var requestedWidth: nat
    var requestedHeight: nat
    var actualWidth: nat
    var actualHeight: nat
    var generation: nat
    var status: Status
    var targetWidth: nat
    var targetHeight: nat
    var resultAccepted: bool
    var presentedSinceBegin: bool
    var deadline: nat

    ghost function Now(): State
      reads this
    {
      State(fixed, connected, multimon, pending, requestedWidth, requestedHeight, actualWidth, actualHeight,
            generation, status, targetWidth, targetHeight, resultAccepted, presentedSinceBegin, deadline)
    }

    constructor ()
      ensures Now() == Initial()
    {
      fixed, connected, multimon, pending := false, false, false, false;
      requestedWidth, requestedHeight, actualWidth, actualHeight := 0, 0, 0, 0;
      generation, status, targetWidth, targetHeight := 0, Idle, 0, 0;
      resultAccepted, presentedSinceBegin, deadline := false, false, 0;
    }

    method Reset(isConnected: bool)
      modifies this
      ensures Now() == WasReset(old(Now()), isConnected)
    {
      fixed, pending := false, false;
      requestedWidth, requestedHeight, actualWidth, actualHeight := 0, 0, 0, 0;
      status := Idle;
      generation := generation + 1;
      connected := isConnected;
      targetWidth, targetHeight := 0, 0;
      resultAccepted, presentedSinceBegin := false, false;
    }

    method InvalidatePresentation()
      modifies this`generation, this`actualWidth, this`actualHeight, this`pending, this`status, this`resultAccepted,
               this`presentedSinceBegin
      ensures Now() == Invalidated(old(Now()))
    {
      generation := generation + 1;
      actualWidth, actualHeight := 0, 0;
      pending := false;
      status := Idle;
      resultAccepted, presentedSinceBegin := false, false;
    }

    method SetConnected(isConnected: bool)
      modifies this`connected
      ensures Now() == old(Now()).(connected := isConnected)
    {
      connected := isConnected;
    }

    method SetMultimon(isMultimon: bool)
      modifies this`multimon, this`fixed, this`pending, this`requestedWidth, this`requestedHeight, this`status,
               this`generation, this`resultAccepted, this`presentedSinceBegin
      ensures Now() == WithMultimon(old(Now()), isMultimon)
    {
      multimon := isMultimon;
      if isMultimon {
        fixed, pending := false, false;
        requestedWidth, requestedHeight := 0, 0;
        status := Multimon;
        generation := generation + 1;
        resultAccepted, presentedSinceBegin := false, false;
      }
    }

    method Select(isFixed: bool, width: nat, height: nat) returns (ok: bool)
      modifies this`fixed, this`requestedWidth, this`requestedHeight
      ensures Now() == Selected(old(Now()), isFixed, width, height)
      ensures ok == Selectable(old(Now()), isFixed, width, height)
    {
      if !connected || multimon || (isFixed && (width < 200 || height < 200 || width > 4096 || height > 4096)) {
        return false;
      }
      fixed := isFixed;
      requestedWidth := if isFixed then width else 0;
      requestedHeight := if isFixed then height else 0;
      ok := true;
    }

    method Begin(width: nat, height: nat, now: nat) returns (begun: nat)
      modifies this`generation, this`targetWidth, this`targetHeight, this`status, this`pending, this`resultAccepted,
               this`presentedSinceBegin, this`deadline
      ensures Now() == Begun(old(Now()), width, height, now) && begun == Now().generation
    {
      generation := generation + 1;
      targetWidth, targetHeight := width, height;
      status := Applying;
      pending := true;
      resultAccepted, presentedSinceBegin := false, false;
      deadline := now + TIMEOUT;
      begun := generation;
    }

    method Confirm()
      modifies this`pending, this`status
      ensures Now() == Confirmed(old(Now()))
    {
      if resultAccepted && presentedSinceBegin && Near(targetWidth, actualWidth) && Near(targetHeight, actualHeight) {
        pending := false;
        status := Applied;
      }
    }

    method Accept(r: ResizeResult)
      modifies this`targetWidth, this`targetHeight, this`resultAccepted, this`status, this`presentedSinceBegin
      ensures Now() == Accepted(old(Now()), r)
    {
      targetWidth := if r.sentWidth != 0 then r.sentWidth
                     else if r.normalizedWidth != 0 then r.normalizedWidth else targetWidth;
      targetHeight := if r.sentHeight != 0 then r.sentHeight
                      else if r.normalizedHeight != 0 then r.normalizedHeight else targetHeight;
      resultAccepted := true;
      status := if r.status == Deferred then DeferredStatus else WaitingFrame;
      if r.status == Unchanged && actualWidth != 0 && actualHeight != 0 {
        presentedSinceBegin := true;
      }
    }

    method Result(gen: nat, r: ResizeResult)
      modifies this`targetWidth, this`targetHeight, this`resultAccepted, this`status, this`presentedSinceBegin,
               this`pending
      ensures Now() == WithResult(old(Now()), gen, r)
    {
      if gen != generation {
        return;
      }
      if r.status == Failed || r.status == Unsupported {
        pending := false;
        status := if r.status == Failed then FailedStatus else UnsupportedStatus;
        return;
      }
      Accept(r);
      Confirm();
    }

    method Presented(gen: nat, width: nat, height: nat)
      modifies this
      ensures Now() == WithPresented(old(Now()), gen, width, height)
    {
      if gen != generation || width == 0 || height == 0 {
        return;
      }
      actualWidth := width;
      actualHeight := height;
      presentedSinceBegin := true;
      Confirm();
    }

    method Expire(now: nat)
      modifies this`pending, this`status
      ensures Now() == Expired(old(Now()), now)
    {
      if pending && now >= deadline {
        pending := false;
        status := TimedOut;
      }
    }

    method BlocksPointer(now: nat) returns (blocks: bool)
      modifies this`pending, this`status
      ensures Now() == Expired(old(Now()), now) && blocks == Now().pending
    {
      Expire(now);
      blocks := pending;
    }
  }

  // ---- Runs ----

  datatype Step =
    | Reset(connected: bool)
    | Invalidate
    | Connect(connected: bool)
    | Layout(multimon: bool)
    | Choose(fixed: bool, width: nat, height: nat)
    | Begin(width: nat, height: nat)
    | Result(generation: nat, result: ResizeResult)
    | Present(generation: nat, width: nat, height: nat)
    | Look

  function Next(s: State, step: Step, now: nat): State {
    match step
    case Reset(connected) => WasReset(s, connected)
    case Invalidate => Invalidated(s)
    case Connect(connected) => s.(connected := connected)
    case Layout(multimon) => WithMultimon(s, multimon)
    case Choose(fixed, w, h) => Selected(s, fixed, w, h)
    case Begin(w, h) => Begun(s, w, h, now)
    case Result(gen, r) => WithResult(s, gen, r)
    case Present(gen, w, h) => WithPresented(s, gen, w, h)
    case Look => Expired(s, now)
  }

  /** Steps, the time each was taken at, and the states before, between and after them. */
  datatype Run = Run(steps: seq<Step>, times: seq<nat>, states: seq<State>)

  predicate IsStep(r: Run, i: nat)
    requires i < |r.steps| == |r.times| && |r.states| == |r.steps| + 1
  {
    r.states[i + 1] == Next(r.states[i], r.steps[i], r.times[i])
  }

  predicate IsRun(r: Run) {
    && |r.times| == |r.steps| && |r.states| == |r.steps| + 1
    && r.states[0] == Initial()
    && (forall i | 0 <= i < |r.steps| :: IsStep(r, i))
    && (forall i, k | 0 <= i <= k < |r.times| :: r.times[i] <= r.times[k])
  }

  predicate Inv(s: State) {
    && (s.pending ==> s.status.Applying? || s.status.DeferredStatus? || s.status.WaitingFrame?)
    && (s.multimon ==> !s.fixed)
    && (s.fixed ==> 200 <= s.requestedWidth <= 4096 && 200 <= s.requestedHeight <= 4096)
    && (!s.fixed ==> s.requestedWidth == 0 && s.requestedHeight == 0)
    && (s.status.Applied? ==> !s.pending && s.resultAccepted && s.presentedSinceBegin)
    && (s.presentedSinceBegin ==> s.actualWidth != 0 && s.actualHeight != 0)
  }

  lemma ConfirmChangesLittle(s: State)
    ensures Confirmed(s) == s.(pending := Confirmed(s).pending, status := Confirmed(s).status)
  {
  }

  lemma ConfirmKeepsInv(s: State)
    requires Inv(s)
    ensures Inv(Confirmed(s))
  {
  }

  lemma ResultKeepsInv(s: State, generation: nat, r: ResizeResult)
    requires Inv(s)
    ensures Inv(WithResult(s, generation, r))
  {
    if generation == s.generation && !IsFailure(r.status) {
      ConfirmKeepsInv(Accepted(s, r));
    }
  }

  lemma PresentKeepsInv(s: State, generation: nat, width: nat, height: nat)
    requires Inv(s)
    ensures Inv(WithPresented(s, generation, width, height))
  {
    if IsCurrent(s, generation, width, height) {
      ConfirmKeepsInv(s.(actualWidth := width, actualHeight := height, presentedSinceBegin := true));
    }
  }

  lemma OtherStepsKeepInv(s: State, step: Step, now: nat)
    requires Inv(s) && !step.Result? && !step.Present?
    ensures Inv(Next(s, step, now))
  {
  }

  lemma StepKeepsInv(s: State, step: Step, now: nat)
    requires Inv(s)
    ensures Inv(Next(s, step, now))
  {
    if step.Result? {
      ResultKeepsInv(s, step.generation, step.result);
    } else if step.Present? {
      PresentKeepsInv(s, step.generation, step.width, step.height);
    } else {
      OtherStepsKeepInv(s, step, now);
    }
  }

  /** Pending only while a request is being applied, deferred or waiting for its frame; never fixed in multi-monitor
      mode; a pinned size only in fixed mode, and then within 200..4096. */
  lemma {:induction false} StatusIsConsistent(r: Run, n: nat)
    requires IsRun(r) && n <= |r.steps|
    ensures Inv(r.states[n])
  {
    if n > 0 {
      StatusIsConsistent(r, n - 1);
      assert IsStep(r, n - 1);
      StepKeepsInv(r.states[n - 1], r.steps[n - 1], r.times[n - 1]);
    }
  }

  lemma GenerationGrows(s: State, step: Step, now: nat)
    ensures s.generation <= Next(s, step, now).generation
  {
  }

  /** The generation never decreases, and whoever holds an older one changes nothing with a result or a
      presentation, however late it arrives. */
  lemma {:induction false} OldGenerationsAreIgnored(r: Run, m: nat, n: nat, result: ResizeResult, width: nat,
                                                    height: nat)
    requires IsRun(r) && m <= n <= |r.steps|
    ensures r.states[m].generation <= r.states[n].generation
    ensures r.states[m].generation < r.states[n].generation ==>
              && WithResult(r.states[n], r.states[m].generation, result) == r.states[n]
              && WithPresented(r.states[n], r.states[m].generation, width, height) == r.states[n]
    decreases n
  {
    if m < n {
      OldGenerationsAreIgnored(r, m, n - 1, result, width, height);
      assert IsStep(r, n - 1);
      GenerationGrows(r.states[n - 1], r.steps[n - 1], r.times[n - 1]);
    }
  }

  /** The steps that start a generation. */
  predicate NewGeneration(step: Step) {
    step.Reset? || step.Invalidate? || step.Begin? || (step.Layout? && step.multimon)
  }

  function Generations(r: Run, n: nat): nat
    requires IsRun(r) && n <= |r.steps|
  {
    if n == 0 then 0 else Generations(r, n - 1) + if NewGeneration(r.steps[n - 1]) then 1 else 0
  }

  lemma {:induction false} GenerationCounts(r: Run, n: nat)
    requires IsRun(r) && n <= |r.steps|
    ensures r.states[n].generation == Generations(r, n)
  {
    if n > 0 {
      GenerationCounts(r, n - 1);
      assert IsStep(r, n - 1);
      if r.steps[n - 1].Result? {
        ConfirmChangesLittle(Accepted(r.states[n - 1], r.steps[n - 1].result));
      }
    }
  }

  // ---- What "Applied" is evidence of ----

  /** A result of the current generation that is not a failure. */
  predicate IsGoodResult(s: State, step: Step) {
    && step.Result? && step.generation == s.generation
    && (step.result.status == Sent || step.result.status == Deferred || step.result.status == Unchanged)
  }

  predicate IsPresentation(s: State, step: Step) {
    step.Present? && IsCurrent(s, step.generation, step.width, step.height)
  }

  /** A presentation, or a result that says the size is what the screen already shows. */
  predicate Vouches(s: State, step: Step) {
    || IsPresentation(s, step)
    || (IsGoodResult(s, step) && step.result.status == Unchanged && s.actualWidth != 0 && s.actualHeight != 0)
  }

  lemma WhereAcceptanceComesFrom(s: State, step: Step, now: nat)
    requires Next(s, step, now).resultAccepted
    ensures Next(s, step, now).generation == s.generation && (IsGoodResult(s, step) || s.resultAccepted)
  {
  }

  lemma WhereTheSizeComesFrom(s: State, step: Step, now: nat)
    requires Next(s, step, now).actualWidth != 0
    ensures var s' := Next(s, step, now);
            if IsPresentation(s, step) then s'.actualWidth == step.width && s'.actualHeight == step.height
            else s'.actualWidth == s.actualWidth && s'.actualHeight == s.actualHeight
  {
  }

  lemma WhereThePresentComesFrom(s: State, step: Step, now: nat)
    requires Next(s, step, now).presentedSinceBegin
    ensures Next(s, step, now).generation == s.generation && (Vouches(s, step) || s.presentedSinceBegin)
  {
    if step.Result? {
      ConfirmChangesLittle(Accepted(s, step.result));
    }
  }

  function NoResult(): ResizeResult { ResizeResult(Failed, 0, 0, 0, 0) }

  /** What was accepted or shown stays so in its generation. */
  lemma AcceptanceLasts(s: State, step: Step, now: nat)
    requires Next(s, step, now).generation == s.generation
    ensures s.resultAccepted || IsGoodResult(s, step) ==> Next(s, step, now).resultAccepted
    ensures s.presentedSinceBegin || Vouches(s, step) ==> Next(s, step, now).presentedSinceBegin
  {
    if step.Result? {
      ConfirmChangesLittle(Accepted(s, step.result));
    }
  }

  lemma {:induction false} ResultBehind(r: Run, n: nat) returns (i: nat)
    requires IsRun(r) && n <= |r.steps| && r.states[n].resultAccepted
    ensures i < n && IsGoodResult(r.states[i], r.steps[i]) && r.states[i].generation == r.states[n].generation
    decreases n
  {
    i := n - 1;
    assert IsStep(r, i);
    WhereAcceptanceComesFrom(r.states[i], r.steps[i], r.times[i]);
    if !IsGoodResult(r.states[i], r.steps[i]) {
      i := ResultBehind(r, i);
    }
  }

  /** A known size on the screen was presented, and presented last. */
  lemma {:induction false} PresentationBehind(r: Run, n: nat) returns (i: nat)
    requires IsRun(r) && n <= |r.steps| && r.states[n].actualWidth != 0
    ensures i < n && IsPresentation(r.states[i], r.steps[i])
    ensures r.steps[i].width == r.states[n].actualWidth && r.steps[i].height == r.states[n].actualHeight
    ensures forall k | i < k < n :: !IsPresentation(r.states[k], r.steps[k])
    decreases n
  {
    i := n - 1;
    assert IsStep(r, i);
    WhereTheSizeComesFrom(r.states[i], r.steps[i], r.times[i]);
    if !IsPresentation(r.states[i], r.steps[i]) {
      i := PresentationBehind(r, i);
    }
  }

  /** The presentation was of the current generation, unless an Unchanged result vouched for an older one. */
  lemma {:induction false} VouchedFor(r: Run, n: nat) returns (i: nat)
    requires IsRun(r) && n <= |r.steps| && r.states[n].presentedSinceBegin
    ensures i < n && Vouches(r.states[i], r.steps[i]) && r.states[i].generation == r.states[n].generation
    decreases n
  {
    i := n - 1;
    assert IsStep(r, i);
    WhereThePresentComesFrom(r.states[i], r.steps[i], r.times[i]);
    if !Vouches(r.states[i], r.steps[i]) {
      i := VouchedFor(r, i);
    }
  }

  lemma WhenAppliedAppears(s: State, step: Step, now: nat)
    requires Next(s, step, now).status.Applied? && !s.status.Applied?
    ensures Matches(Next(s, step, now))
  {
  }

  /** The status becomes Applied only after a non-failed result of the current generation (at `result`), with the
      size presented last (at `shown`) within 15 px of the target in both dimensions, and that presentation made in
      the current generation or vouched for by an Unchanged result (at `vouched`). */
  lemma AppliedOnlyWhenShown(r: Run, n: nat) returns (result: nat, shown: nat, vouched: nat)
    requires IsRun(r) && n < |r.steps|
    requires r.states[n + 1].status.Applied? && !r.states[n].status.Applied?
    ensures result <= n && IsGoodResult(r.states[result], r.steps[result])
    ensures r.states[result].generation == r.states[n + 1].generation
    ensures shown <= n && IsPresentation(r.states[shown], r.steps[shown])
    ensures forall k | shown < k <= n :: !IsPresentation(r.states[k], r.steps[k])
    ensures Near(r.states[n + 1].targetWidth, r.steps[shown].width)
    ensures Near(r.states[n + 1].targetHeight, r.steps[shown].height)
    ensures vouched <= n && Vouches(r.states[vouched], r.steps[vouched])
    ensures r.states[vouched].generation == r.states[n + 1].generation
  {
    StatusIsConsistent(r, n + 1);
    assert IsStep(r, n);
    WhenAppliedAppears(r.states[n], r.steps[n], r.times[n]);
    result := ResultBehind(r, n + 1);
    shown := PresentationBehind(r, n + 1);
    vouched := VouchedFor(r, n + 1);
  }

  /** A result has been accepted exactly when the current generation had one that was no failure. */
  lemma {:induction false} AcceptedExactlyWhen(r: Run, n: nat)
    requires IsRun(r) && n <= |r.steps|
    ensures r.states[n].resultAccepted <==>
              exists i: nat :: i < n && IsGoodResult(r.states[i], r.steps[i])
                               && r.states[i].generation == r.states[n].generation
  {
    if n > 0 {
      var k := n - 1;
      AcceptedExactlyWhen(r, k);
      assert IsStep(r, k);
      OldGenerationsAreIgnored(r, k, n, NoResult(), 0, 0);
      if r.states[k].generation == r.states[n].generation {
        AcceptanceLasts(r.states[k], r.steps[k], r.times[k]);
      }
      forall i: nat | i < k && r.states[i].generation == r.states[n].generation
        ensures r.states[i].generation == r.states[k].generation
      {
        OldGenerationsAreIgnored(r, i, k, NoResult(), 0, 0);
      }
      if r.states[n].resultAccepted {
        var i := ResultBehind(r, n);
      }
    }
  }

  /** The screen counts as shown exactly when the current generation had a step that vouches for it. */
  lemma {:induction false} ShownExactlyWhen(r: Run, n: nat)
    requires IsRun(r) && n <= |r.steps|
    ensures r.states[n].presentedSinceBegin <==>
              exists i: nat :: i < n && Vouches(r.states[i], r.steps[i])
                               && r.states[i].generation == r.states[n].generation
  {
    if n > 0 {
      var k := n - 1;
      ShownExactlyWhen(r, k);
      assert IsStep(r, k);
      OldGenerationsAreIgnored(r, k, n, NoResult(), 0, 0);
      if r.states[k].generation == r.states[n].generation {
        AcceptanceLasts(r.states[k], r.steps[k], r.times[k]);
      }
      forall i: nat | i < k && r.states[i].generation == r.states[n].generation
        ensures r.states[i].generation == r.states[k].generation
      {
        OldGenerationsAreIgnored(r, i, k, NoResult(), 0, 0);
      }
      if r.states[n].presentedSinceBegin {
        var i := VouchedFor(r, n);
      }
    }
  }

  /** At most 15 px apart in both dimensions. */
  predicate Meets(s: State) {
    -15 <= s.targetWidth - s.actualWidth <= 15 && -15 <= s.targetHeight - s.actualHeight <= 15
  }

  lemma ConfirmedExactlyWhen(s: State)
    requires !s.status.Applied?
    ensures Confirmed(s).status.Applied? <==> s.resultAccepted && s.presentedSinceBegin && Meets(s)
    ensures Meets(Confirmed(s)) == Meets(s)
  {
  }

  lemma AppliedAppears(s: State, step: Step, now: nat)
    requires !s.status.Applied? || IsGoodResult(s, step)
    ensures var s' := Next(s, step, now);
            s'.status.Applied? <==>
              && (IsGoodResult(s, step) || IsPresentation(s, step))
              && s'.resultAccepted && s'.presentedSinceBegin && Meets(s')
  {
    if IsGoodResult(s, step) {
      ConfirmedExactlyWhen(Accepted(s, step.result));
      ConfirmChangesLittle(Accepted(s, step.result));
    } else if IsPresentation(s, step) {
      var shown := s.(actualWidth := step.width, actualHeight := step.height, presentedSinceBegin := true);
      ConfirmedExactlyWhen(shown);
      ConfirmChangesLittle(shown);
    }
  }

  /** The status becomes Applied exactly with a good result or a presentation of the current generation after which
      a good result and a vouching step of that generation are there, and the target is met; a good result also
      takes Applied away unless that is so. */
  lemma AppliedExactlyWhen(r: Run, n: nat)
    requires IsRun(r) && n < |r.steps|
    requires !r.states[n].status.Applied? || IsGoodResult(r.states[n], r.steps[n])
    ensures r.states[n + 1].status.Applied? <==>
              && (IsGoodResult(r.states[n], r.steps[n]) || IsPresentation(r.states[n], r.steps[n]))
              && r.states[n + 1].resultAccepted && r.states[n + 1].presentedSinceBegin && Meets(r.states[n + 1])
  {
    assert IsStep(r, n);
    AppliedAppears(r.states[n], r.steps[n], r.times[n]);
  }

  // ---- What the fields say, each by the last step that moved it ----

  /** The length a step names in one dimension, 0 if it names none. */
  function Named(step: Step, tall: bool): nat {
    match step
    case Begin(w, h) => if tall then h else w
    case Result(_, r) =>
      var sent, normalized := if tall then r.sentHeight else r.sentWidth,
                              if tall then r.normalizedHeight else r.normalizedWidth;
      if sent != 0 then sent else normalized
    case Present(_, w, h) => if tall then h else w
    case _ => 0
  }

  function Target(s: State, tall: bool): nat { if tall then s.targetHeight else s.targetWidth }

  function Actual(s: State, tall: bool): nat { if tall then s.actualHeight else s.actualWidth }

  predicate MovesTarget(s: State, step: Step, tall: bool) {
    step.Reset? || step.Begin? || (IsGoodResult(s, step) && Named(step, tall) != 0)
  }

  predicate MovesActual(s: State, step: Step) { step.Reset? || step.Invalidate? || IsPresentation(s, step) }

  /** Looking, and results and presentations apart from the fields they are about, move nothing else. */
  lemma WhatResultsLeave(s: State, step: Step, now: nat)
    requires step.Result? || step.Present? || step.Look?
    ensures var s' := Next(s, step, now);
            && s'.fixed == s.fixed && s'.requestedWidth == s.requestedWidth && s'.requestedHeight == s.requestedHeight
            && s'.connected == s.connected && s'.multimon == s.multimon
            && (!step.Result? ==> s'.targetWidth == s.targetWidth && s'.targetHeight == s.targetHeight)
            && (!step.Present? ==> s'.actualWidth == s.actualWidth && s'.actualHeight == s.actualHeight)
  {
    if step.Result? {
      ConfirmChangesLittle(Accepted(s, step.result));
    } else if step.Present? {
      ConfirmChangesLittle(s.(actualWidth := step.width, actualHeight := step.height, presentedSinceBegin := true));
    }
  }

  lemma TargetMoves(s: State, step: Step, now: nat, tall: bool)
    ensures Target(Next(s, step, now), tall) ==
              if MovesTarget(s, step, tall) then Named(step, tall) else Target(s, tall)
  {
    if step.Result? {
      ConfirmChangesLittle(Accepted(s, step.result));
    } else if step.Present? || step.Look? {
      WhatResultsLeave(s, step, now);
    }
  }

  lemma ActualMoves(s: State, step: Step, now: nat, tall: bool)
    ensures Actual(Next(s, step, now), tall) ==
              if !MovesActual(s, step) then Actual(s, tall) else if step.Present? then Named(step, tall) else 0
  {
    if step.Result? || step.Look? {
      WhatResultsLeave(s, step, now);
    } else if IsPresentation(s, step) {
      ConfirmChangesLittle(s.(actualWidth := step.width, actualHeight := step.height, presentedSinceBegin := true));
    }
  }

  lemma ModeMoves(s: State, step: Step, now: nat)
    ensures var s' := Next(s, step, now);
            if !MovesMode(s, step) then
              s'.fixed == s.fixed && s'.requestedWidth == s.requestedWidth && s'.requestedHeight == s.requestedHeight
            else if step.Choose? && step.fixed then
              s'.fixed && s'.requestedWidth == step.width && s'.requestedHeight == step.height
            else !s'.fixed && s'.requestedWidth == 0 && s'.requestedHeight == 0
  {
    if step.Result? || step.Present? || step.Look? {
      WhatResultsLeave(s, step, now);
    }
  }

  lemma FlagsMove(s: State, step: Step, now: nat)
    ensures Next(s, step, now).connected == if step.Reset? || step.Connect? then step.connected else s.connected
    ensures Next(s, step, now).multimon == if step.Layout? then step.multimon else s.multimon
  {
    if step.Result? || step.Present? || step.Look? {
      WhatResultsLeave(s, step, now);
    }
  }

  /** The target is what the last step that moved it named: a request, or a good result that names a size. */
  lemma {:induction false} TargetIsTheLastNamed(r: Run, b: nat, n: nat, tall: bool)
    requires IsRun(r) && b < n <= |r.steps| && MovesTarget(r.states[b], r.steps[b], tall)
    requires forall k | b < k < n :: !MovesTarget(r.states[k], r.steps[k], tall)
    ensures Target(r.states[n], tall) == Named(r.steps[b], tall)
    decreases n
  {
    var k := n - 1;
    assert IsStep(r, k);
    TargetMoves(r.states[k], r.steps[k], r.times[k], tall);
    if b < k {
      TargetIsTheLastNamed(r, b, k, tall);
    }
  }

  /** The size on the screen is the one presented last, in its generation, unless it was reset or invalidated. */
  lemma {:induction false} ActualIsTheLastShown(r: Run, b: nat, n: nat, tall: bool)
    requires IsRun(r) && b < n <= |r.steps| && MovesActual(r.states[b], r.steps[b])
    requires forall k | b < k < n :: !MovesActual(r.states[k], r.steps[k])
    ensures Actual(r.states[n], tall) == if r.steps[b].Present? then Named(r.steps[b], tall) else 0
    decreases n
  {
    var k := n - 1;
    assert IsStep(r, k);
    ActualMoves(r.states[k], r.steps[k], r.times[k], tall);
    if b < k {
      ActualIsTheLastShown(r, b, k, tall);
    }
  }

  /** A choice the toolbar may make: connected, a single monitor, and a pinned size within 200..4096. */
  predicate IsAllowedChoice(s: State, step: Step) {
    && step.Choose? && s.connected && !s.multimon
    && (!step.fixed || (200 <= step.width <= 4096 && 200 <= step.height <= 4096))
  }

  predicate MovesMode(s: State, step: Step) {
    step.Reset? || (step.Layout? && step.multimon) || IsAllowedChoice(s, step)
  }

  /** The mode and the pinned size are those of the last allowed choice, unless a reset or a multi-monitor layout
      came after it. */
  lemma {:induction false} ModeIsTheLastChoice(r: Run, b: nat, n: nat)
    requires IsRun(r) && b < n <= |r.steps| && MovesMode(r.states[b], r.steps[b])
    requires forall k | b < k < n :: !MovesMode(r.states[k], r.steps[k])
    ensures var s, step := r.states[n], r.steps[b];
            if step.Choose? && step.fixed then
              s.fixed && s.requestedWidth == step.width && s.requestedHeight == step.height
            else !s.fixed && s.requestedWidth == 0 && s.requestedHeight == 0
    decreases n
  {
    var k := n - 1;
    assert IsStep(r, k);
    ModeMoves(r.states[k], r.steps[k], r.times[k]);
    if b < k {
      ModeIsTheLastChoice(r, b, k);
    }
  }

  /** Connected as the last reset or connection change said, multi-monitor as the last layout said. */
  lemma {:induction false} FlagsAreTheLastSaid(r: Run, b: nat, n: nat)
    requires IsRun(r) && b < n <= |r.steps|
    ensures (r.steps[b].Reset? || r.steps[b].Connect?)
            && (forall k | b < k < n :: !r.steps[k].Reset? && !r.steps[k].Connect?) ==>
              r.states[n].connected == r.steps[b].connected
    ensures r.steps[b].Layout? && (forall k | b < k < n :: !r.steps[k].Layout?) ==>
              r.states[n].multimon == r.steps[b].multimon
    decreases n
  {
    var k := n - 1;
    assert IsStep(r, k);
    FlagsMove(r.states[k], r.steps[k], r.times[k]);
    if b < k {
      FlagsAreTheLastSaid(r, b, k);
    }
  }

  /** The status after a step, cause by cause; no other step changes it. */
  lemma StatusHasItsCause(s: State, step: Step, now: nat)
    requires Inv(s)
    ensures var status := Next(s, step, now).status;
            match step
            case Reset(_) => status == Idle
            case Invalidate => status == Idle
            case Layout(true) => status == Multimon
            case Begin(_, _) => status == Applying
            case Look => status == if s.pending && now >= s.deadline then TimedOut else s.status
            case Result(generation, result) =>
              if generation != s.generation then status == s.status
              else if result.status == Failed then status == FailedStatus
              else if result.status == Unsupported then status == UnsupportedStatus
              else status == Applied || status == if result.status == Deferred then DeferredStatus else WaitingFrame
            case Present(_, _, _) => status == Applied || status == s.status
            case _ => status == s.status
  {
  }

  // ---- What "Applied" says later on ----

  predicate OnTarget(s: State) { Near(s.targetWidth, s.actualWidth) && Near(s.targetHeight, s.actualHeight) }

  /** The steps that can move the target or the size on the screen while the status stays Applied. */
  predicate Updates(s: State, step: Step) { IsPresentation(s, step) || IsGoodResult(s, step) }

  predicate ShowsOffTarget(s: State, step: Step) {
    IsPresentation(s, step) && !(Near(s.targetWidth, step.width) && Near(s.targetHeight, step.height))
  }

  predicate IsLastUpdate(r: Run, p: nat, m: nat)
    requires IsRun(r) && p < m <= |r.steps|
  {
    Updates(r.states[p], r.steps[p]) && forall q | p < q < m :: !Updates(r.states[q], r.steps[q])
  }

  /** A presentation keeps Applied whatever it shows; a result takes it away unless it leaves the target met. */
  lemma WhileApplied(s: State, step: Step, now: nat)
    requires Inv(s) && s.status.Applied? && Next(s, step, now).status.Applied?
    ensures OnTarget(Next(s, step, now)) <==>
              if Updates(s, step) then !ShowsOffTarget(s, step) else OnTarget(s)
  {
  }

  /** From the step n at which Applied appears, and as long as the status stays Applied: the size on the screen is
      off the target exactly when the last presentation or good result after n is a presentation, of the current
      generation, that is 16 px or more from the target of its moment. */
  lemma {:induction false} AppliedIsStaleExactlyWhen(r: Run, n: nat, m: nat)
    requires IsRun(r) && n < m <= |r.steps| && !r.states[n].status.Applied?
    requires forall k | n < k <= m :: r.states[k].status.Applied?
    ensures !OnTarget(r.states[m]) <==>
              exists p: nat :: n < p < m && ShowsOffTarget(r.states[p], r.steps[p]) && IsLastUpdate(r, p, m)
    decreases m
  {
    var k := m - 1;
    assert IsStep(r, k);
    if k == n {
      WhenAppliedAppears(r.states[n], r.steps[n], r.times[n]);
    } else {
      StatusIsConsistent(r, k);
      WhileApplied(r.states[k], r.steps[k], r.times[k]);
      AppliedIsStaleExactlyWhen(r, n, k);
      if Updates(r.states[k], r.steps[k]) {
        assert IsLastUpdate(r, k, m);
      } else if p: nat :| n < p < k && ShowsOffTarget(r.states[p], r.steps[p]) && IsLastUpdate(r, p, k) {
        assert IsLastUpdate(r, p, m);
      } else if p: nat :| n < p < m && ShowsOffTarget(r.states[p], r.steps[p]) && IsLastUpdate(r, p, m) {
        assert IsLastUpdate(r, p, k);
      }
    }
  }

  /** Such a run: Applied is not withdrawn by a later presentation of another size in the same generation. */
  lemma AppliedCanGoStale() returns (r: Run)
    ensures IsRun(r) && |r.steps| == 4 && !r.states[2].status.Applied? && r.states[3].status.Applied?
    ensures r.states[4].status.Applied? && !OnTarget(r.states[4])
  {
    var sent := ResizeResult(Sent, 800, 600, 800, 600);
    var steps := [Begin(800, 600), Result(1, sent), Present(1, 800, 600), Present(1, 1024, 600)];
    var s1 := Next(Initial(), steps[0], 0);
    var s2 := Next(s1, steps[1], 0);
    var s3 := Next(s2, steps[2], 0);
    var s4 := Next(s3, steps[3], 0);
    r := Run(steps, [0, 0, 0, 0], [Initial(), s1, s2, s3, s4]);
  }

  // ---- The deadline ----

  lemma WherePendingComesFrom(s: State, step: Step, now: nat)
    requires Next(s, step, now).pending
    ensures var s' := Next(s, step, now);
            if step.Begin? then s'.deadline == now + TIMEOUT
            else s.pending && !NewGeneration(step) && s'.generation == s.generation && s'.deadline == s.deadline
  {
  }

  /** A pending request was begun in the current generation, and its deadline is the timeout after that. */
  lemma {:induction false} BeginBehind(r: Run, n: nat) returns (i: nat)
    requires IsRun(r) && n <= |r.steps| && r.states[n].pending
    ensures i < n && r.steps[i].Begin? && r.states[i + 1].generation == r.states[n].generation
    ensures r.states[n].deadline == r.times[i] + TIMEOUT
    ensures forall k | i < k < n :: !NewGeneration(r.steps[k])
    decreases n
  {
    i := n - 1;
    assert IsStep(r, i);
    WherePendingComesFrom(r.states[i], r.steps[i], r.times[i]);
    if !r.steps[i].Begin? {
      i := BeginBehind(r, i);
    }
  }

  /** The steps that end a request: those that start a generation, a failure, and one that brings Applied. */
  predicate EndsRequest(s: State, step: Step, s': State) {
    || NewGeneration(step)
    || (step.Result? && step.generation == s.generation
        && (step.result.status == Failed || step.result.status == Unsupported))
    || ((IsPresentation(s, step) || IsGoodResult(s, step)) && s'.status.Applied?)
  }

  /** The request begun at step b was not ended up to n, and nobody looked eight seconds after it or later. */
  predicate IsOpen(r: Run, b: nat, n: nat)
    requires IsRun(r) && b < n <= |r.steps|
  {
    && r.steps[b].Begin?
    && forall k | b < k < n :: !EndsRequest(r.states[k], r.steps[k], r.states[k + 1])
                               && !(r.steps[k].Look? && r.times[k] >= r.times[b] + 8000)
  }

  lemma StepOfARequest(s: State, step: Step, now: nat)
    requires Inv(s) && !NewGeneration(step)
    ensures var s' := Next(s, step, now);
            && s'.generation == s.generation && s'.deadline == s.deadline
            && (s'.pending <==> s.pending && !EndsRequest(s, step, s') && !(step.Look? && now >= s.deadline))
  {
    if step.Result? {
      ConfirmChangesLittle(Accepted(s, step.result));
    }
  }

  /** The request begun at step b is pending exactly while it is open. */
  lemma {:induction false} PendingExactlyWhileOpen(r: Run, b: nat, n: nat)
    requires IsRun(r) && b < n <= |r.steps| && r.steps[b].Begin?
    requires forall k | b < k < n :: !NewGeneration(r.steps[k])
    ensures r.states[n].pending <==> IsOpen(r, b, n)
    ensures r.states[n].deadline == r.times[b] + 8000
    decreases n
  {
    var last := n - 1;
    assert IsStep(r, last);
    if last > b {
      PendingExactlyWhileOpen(r, b, last);
      StatusIsConsistent(r, last);
      StepOfARequest(r.states[last], r.steps[last], r.times[last]);
      assert IsOpen(r, b, n) <==>
        && IsOpen(r, b, last) && !EndsRequest(r.states[last], r.steps[last], r.states[n])
        && !(r.steps[last].Look? && r.times[last] >= r.times[b] + 8000);
    }
  }

  /** Pointer input is blocked at time `now` exactly when a request is open that was begun less than eight seconds
      before. */
  lemma BlocksExactlyWhen(r: Run, n: nat, now: nat)
    requires IsRun(r) && n <= |r.steps|
    ensures Expired(r.states[n], now).pending <==>
              exists b: nat :: b < n && IsOpen(r, b, n) && now < r.times[b] + 8000
  {
    if r.states[n].pending {
      var b := BeginBehind(r, n);
      PendingExactlyWhileOpen(r, b, n);
    }
    forall b: nat | b < n && IsOpen(r, b, n)
      ensures r.states[n].pending && r.states[n].deadline == r.times[b] + 8000
    {
      forall k | b < k < n ensures !NewGeneration(r.steps[k]) {
        assert !EndsRequest(r.states[k], r.steps[k], r.states[k + 1]);
      }
      PendingExactlyWhileOpen(r, b, n);
    }
  }
}
