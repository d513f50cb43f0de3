/** Waiting for the frame a sent resize asked for (session/rdp_display_resize_coordinator.cpp): frames that do not
    fit are held back until one fits, the target is superseded, or a worker times the wait out. Every method is one
    region held under the mutex; times are in milliseconds. */
module ResizeCoordinator {
  import opened DisplayResizeTypes

  const FRAME_ALIGNMENT_TOLERANCE: nat := 16
  const SENT_TIMEOUT: nat := 2000

  datatype Wait = Idle | WaitingForTarget | Fallback

  datatype State = State(wait: Wait, generation: nat, width: nat, height: nat, skipped: nat, deadline: nat,
                         stopping: bool)

  function Initial(): State { State(Idle, 0, 0, 0, 0, 0, false) }

  /** Where the worker thread is: before its first wait, in its timed wait, about to call back, or done. */
  datatype Worker = Resting | Armed(generation: nat, deadline: nat) | CallingBack(generation: nat) | Ended

  predicate Close(a: nat, b: nat) { (if a > b then a - b else b - a) < FRAME_ALIGNMENT_TOLERANCE }

  predicate FrameMatchesTarget(s: State, width: nat, height: nat) {
    width != 0 && height != 0 && Close(width, s.width) && Close(height, s.height)
  }

  // ---- The regions as functions of the state ----

  function WasReset(s: State): State {
    s.(generation := s.generation + 1, wait := Idle, width := 0, height := 0, skipped := 0)
  }

  function Begun(s: State, width: nat, height: nat, now: nat): State {
    s.(generation := s.generation + 1, wait := WaitingForTarget, width := width, height := height, skipped := 0,
       deadline := now + SENT_TIMEOUT)
  }

  function FellBack(s: State): State {
    s.(generation := s.generation + 1, wait := Fallback, width := 0, height := 0, skipped := 0)
  }

  function Stopped(s: State): State { s.(stopping := true, generation := s.generation + 1, wait := Idle) }

  function OrElse(a: nat, b: nat): nat { if a > 0 then a else b }

  function WithResult(s: State, r: ResizeResult, now: nat): State {
    if r.status.Unchanged? then s
    else
      var width, height := OrElse(r.sentWidth, r.normalizedWidth), OrElse(r.sentHeight, r.normalizedHeight);
      if r.status.Sent? && width > 0 && height > 0 then Begun(s, width, height, now) else FellBack(s)
  }

  predicate Admits(s: State, width: nat, height: nat) {
    !s.wait.WaitingForTarget? || FrameMatchesTarget(s, width, height)
  }

  function WithFrame(s: State, width: nat, height: nat): State {
    if !s.wait.WaitingForTarget? then s
    else if FrameMatchesTarget(s, width, height) then s.(wait := Idle, skipped := 0)
    else s.(skipped := s.skipped + 1)
  }

  predicate Interrupts(s: State, generation: nat) {
    s.stopping || !s.wait.WaitingForTarget? || s.generation != generation
  }

  /** One step of the worker at time `now`: the same worker and state when it has to keep waiting. */
  function Woken(s: State, w: Worker, now: nat): (State, Worker) {
    match w
    case Resting =>
      if s.stopping then (s, Ended)
      else if s.wait.WaitingForTarget? then (s, Armed(s.generation, s.deadline)) else (s, w)
    case Armed(generation, deadline) =>
      if Interrupts(s, generation) then (s, Resting)
      else if now >= deadline then (s.(wait := Fallback), CallingBack(generation)) else (s, w)
    case CallingBack(_) => (s, Resting)
    case Ended => (s, w)
  }

  class Coordinator {
    var wait: Wait
    var generation: nat
    var width: nat
    var height: nat
    var skipped: nat
    var deadline: nat
    var stopping: bool

    ghost function Now(): State
      reads this
    {
      State(wait, generation, width, height, skipped, deadline, stopping)
    }

    constructor ()
      ensures Now() == Initial()
    {
      wait, generation, width, height, skipped, deadline, stopping := Idle, 0, 0, 0, 0, 0, false;
    }

    method Reset()
      modifies this
      ensures Now() == WasReset(old(Now()))
    {
      generation := generation + 1;
      wait := Idle;
      width, height, skipped := 0, 0, 0;
    }

    method Stop()
      modifies this
      ensures Now() == Stopped(old(Now()))
    {
      stopping := true;
      generation := generation + 1;
      wait := Idle;
    }

    method BeginSent(w: nat, h: nat, now: nat)
      modifies this
      ensures Now() == Begun(old(Now()), w, h, now)
    {
      generation := generation + 1;
      wait := WaitingForTarget;
      width, height, skipped := w, h, 0;
      deadline := now + SENT_TIMEOUT;
    }

    method UseFallback()
      modifies this
      ensures Now() == FellBack(old(Now()))
    {
      generation := generation + 1;
      wait := Fallback;
      width, height, skipped := 0, 0, 0;
    }

    method ApplyResult(r: ResizeResult, now: nat)
      modifies this
      ensures Now() == WithResult(old(Now()), r, now)
    {
      if r.status == Unchanged {
        return;
      }
      if r.status == Sent {
        var w := if r.sentWidth > 0 then r.sentWidth else r.normalizedWidth;
        var h := if r.sentHeight > 0 then r.sentHeight else r.normalizedHeight;
        if w > 0 && h > 0 {
          BeginSent(w, h, now);
          return;
        }
      }
      UseFallback();
    }

    method ShouldQueueFrame(w: nat, h: nat) returns (queue: bool)
      modifies this`wait, this`skipped
      ensures Now() == WithFrame(old(Now()), w, h) && queue == Admits(old(Now()), w, h)
    {
      if wait != WaitingForTarget {
        return true;
      }
      if w != 0 && h != 0 && Close(w, width) && Close(h, height) {
        wait := Idle;
        skipped := 0;
        return true;
      }
      skipped := skipped + 1;
      queue := false;
    }

    method WorkerStep(w: Worker, now: nat) returns (w': Worker)
      modifies this`wait
      ensures (Now(), w') == Woken(old(Now()), w, now)
    {
      w' := w;
      match w {
        case Resting =>
          if stopping {
            w' := Ended;
          } else if wait == WaitingForTarget {
            w' := Armed(generation, deadline);
          }
        case Armed(gen, until) =>
          if stopping || wait != WaitingForTarget || generation != gen {
            w' := Resting;
          } else if now >= until {
            wait := Fallback;
            w' := CallingBack(gen);
          }
        case CallingBack(_) =>
          w' := Resting;
        case Ended =>
      }
    }
  }

  // ---- Runs ----

  datatype Step = Reset | Stop | Apply(result: ResizeResult) | Frame(width: nat, height: nat) | Wake

  datatype World = World(s: State, worker: Worker)

  function Next(w: World, step: Step, now: nat): World {
    match step
    case Reset => w.(s := WasReset(w.s))
    case Stop => w.(s := Stopped(w.s))
    case Apply(r) => w.(s := WithResult(w.s, r, now))
    case Frame(width, height) => w.(s := WithFrame(w.s, width, height))
    case Wake => var (s, worker) := Woken(w.s, w.worker, now); World(s, worker)
  }

  /** Steps, the time each was taken at, and the worlds before, between and after them. */
  datatype Run = Run(steps: seq<Step>, times: seq<nat>, worlds: seq<World>)

  predicate IsStep(r: Run, i: nat)
    requires i < |r.steps| == |r.times| && |r.worlds| == |r.steps| + 1
  {
    r.worlds[i + 1] == Next(r.worlds[i], r.steps[i], r.times[i])
  }

  predicate IsRun(r: Run) {
    && |r.times| == |r.steps| && |r.worlds| == |r.steps| + 1
    && r.worlds[0] == World(Initial(), Resting)
    && (forall i | 0 <= i < |r.steps| :: IsStep(r, i))
  }

  predicate Waits(w: World, generation: nat) { w.s.wait.WaitingForTarget? && w.s.generation == generation }

  predicate Leaves(r: Run, i: nat, generation: nat)
    requires IsRun(r) && i < |r.steps|
  {
    Waits(r.worlds[i], generation) && !Waits(r.worlds[i + 1], generation)
  }

  // The three ways out.

  predicate ByMatch(r: Run, i: nat, generation: nat)
    requires IsRun(r) && i < |r.steps|
  {
    && r.steps[i].Frame? && FrameMatchesTarget(r.worlds[i].s, r.steps[i].width, r.steps[i].height)
    && r.worlds[i + 1].s.wait.Idle? && r.worlds[i + 1].s.generation == generation
  }

  predicate BySupersession(r: Run, i: nat, generation: nat)
    requires IsRun(r) && i < |r.steps|
  {
    (r.steps[i].Reset? || r.steps[i].Stop? || r.steps[i].Apply?) && r.worlds[i + 1].s.generation == generation + 1
  }

  predicate ByTimeout(r: Run, i: nat, generation: nat)
    requires IsRun(r) && i < |r.steps|
  {
    && r.steps[i].Wake? && r.times[i] >= r.worlds[i].s.deadline
    && r.worlds[i + 1].s.wait.Fallback? && r.worlds[i + 1].worker == CallingBack(generation)
  }

  lemma GenerationGrows(w: World, step: Step, now: nat)
    ensures w.s.generation <= Next(w, step, now).s.generation
  {
  }

  /** An armed worker holds the deadline of the generation it waits for, and was armed before any stop. */
  predicate WorkerInv(w: World) {
    match w.worker
    case Armed(g, d) =>
      g <= w.s.generation && (Waits(w, g) ==> d == w.s.deadline) && (w.s.stopping ==> g < w.s.generation)
    case CallingBack(g) => g <= w.s.generation && !Waits(w, g)
    case _ => true
  }

  lemma StepKeepsWorkerInv(w: World, step: Step, now: nat)
    requires WorkerInv(w)
    ensures WorkerInv(Next(w, step, now))
    ensures w.s.generation <= Next(w, step, now).s.generation <= w.s.generation + 1
  {
  }

  lemma {:induction false} RunKeepsWorkerInv(r: Run, n: nat)
    requires IsRun(r) && n <= |r.steps|
    ensures WorkerInv(r.worlds[n])
  {
    if n > 0 {
      RunKeepsWorkerInv(r, n - 1);
      assert IsStep(r, n - 1);
      StepKeepsWorkerInv(r.worlds[n - 1], r.steps[n - 1], r.times[n - 1]);
    }
  }

  /** Once a generation that exists is not waited for, it never is again. */
  lemma {:induction false} NeverAgain(r: Run, m: nat, n: nat, generation: nat)
    requires IsRun(r) && m <= n <= |r.steps|
    requires generation <= r.worlds[m].s.generation && !Waits(r.worlds[m], generation)
    ensures generation <= r.worlds[n].s.generation && !Waits(r.worlds[n], generation)
    decreases n
  {
    if m < n {
      NeverAgain(r, m, n - 1, generation);
      assert IsStep(r, n - 1);
      RunKeepsWorkerInv(r, n - 1);
      StepKeepsWorkerInv(r.worlds[n - 1], r.steps[n - 1], r.times[n - 1]);
    }
  }

  /** A target leaves the waiting state at most once, and by exactly one of: a frame within 15 px in both
      dimensions, supersession by a newer generation, or a timeout at or after its deadline. */
  lemma OneWayOut(r: Run, i: nat, generation: nat)
    requires IsRun(r) && i < |r.steps| && Leaves(r, i, generation)
    ensures ByMatch(r, i, generation) || BySupersession(r, i, generation) || ByTimeout(r, i, generation)
    ensures !(ByMatch(r, i, generation) && BySupersession(r, i, generation))
    ensures !(ByMatch(r, i, generation) && ByTimeout(r, i, generation))
    ensures !(BySupersession(r, i, generation) && ByTimeout(r, i, generation))
    ensures forall k | 0 <= k < |r.steps| && Leaves(r, k, generation) :: k == i
  {
    assert IsStep(r, i);
    RunKeepsWorkerInv(r, i);
    StepKeepsWorkerInv(r.worlds[i], r.steps[i], r.times[i]);
    forall k | 0 <= k < |r.steps| && Leaves(r, k, generation) ensures k == i {
      var first, second := if k < i then k else i, if k < i then i else k;
      if first < second {
        assert IsStep(r, first);
        GenerationGrows(r.worlds[first], r.steps[first], r.times[first]);
        NeverAgain(r, first + 1, second, generation);
      }
    }
  }

  // ---- The timeout callback ----

  /** The worker calls back with `generation` at step k. */
  predicate CallsBack(r: Run, k: nat, generation: nat)
    requires IsRun(r) && k < |r.steps|
  {
    r.steps[k].Wake? && r.worlds[k].worker == CallingBack(generation)
  }

  /** The callback of a generation was armed by its timeout: at or after the deadline set when it began. */
  lemma {:induction false} CallbackFollowsItsTimeout(r: Run, n: nat, generation: nat) returns (i: nat)
    requires IsRun(r) && n <= |r.steps| && r.worlds[n].worker == CallingBack(generation)
    ensures i < n && Leaves(r, i, generation) && ByTimeout(r, i, generation)
    ensures forall k | i < k < n :: !r.steps[k].Wake?
    decreases n
  {
    i := n - 1;
    assert IsStep(r, i);
    RunKeepsWorkerInv(r, i);
    if r.worlds[i].worker == CallingBack(generation) {
      i := CallbackFollowsItsTimeout(r, i, generation);
    }
  }

  /** The timeout callback fires at most once per generation, only for a generation that timed out, and so never for
      one that a frame matched or a newer target superseded. */
  lemma CallbackOncePerTimeout(r: Run, k: nat, generation: nat) returns (i: nat)
    requires IsRun(r) && k < |r.steps| && CallsBack(r, k, generation)
    ensures i < k && Leaves(r, i, generation) && ByTimeout(r, i, generation)
    ensures forall l | 0 <= l < |r.steps| && CallsBack(r, l, generation) :: l == k
    ensures forall l | 0 <= l < |r.steps| && Leaves(r, l, generation) ::
              !ByMatch(r, l, generation) && !BySupersession(r, l, generation)
  {
    i := CallbackFollowsItsTimeout(r, k, generation);
    OneWayOut(r, i, generation);
    forall l | 0 <= l < |r.steps| && CallsBack(r, l, generation) ensures l == k {
      var j := CallbackFollowsItsTimeout(r, l, generation);
      assert Leaves(r, j, generation);
      assert j == i;
    }
  }

  // ---- Frames held back ----

  predicate Refuses(r: Run, i: nat)
    requires IsRun(r) && i < |r.steps|
  {
    r.steps[i].Frame? && !Admits(r.worlds[i].s, r.steps[i].width, r.steps[i].height)
  }

  /** The frames refused from step b up to step n. */
  function Refusals(r: Run, b: nat, n: nat): nat
    requires IsRun(r) && b <= n <= |r.steps|
    decreases n
  {
    if b == n then 0 else Refusals(r, b, n - 1) + if Refuses(r, n - 1) then 1 else 0
  }

  /** While a target is waited for, it was set by some step, its deadline is the timeout after that, and the skipped
      count is the number of frames refused since. */
  lemma {:induction false} SkippedCountsRefusals(r: Run, n: nat) returns (b: nat)
    requires IsRun(r) && n <= |r.steps| && r.worlds[n].s.wait.WaitingForTarget?
    ensures b < n && r.steps[b].Apply? && r.worlds[b + 1].s.generation == r.worlds[n].s.generation
    ensures r.worlds[n].s.deadline == r.times[b] + SENT_TIMEOUT
    ensures r.worlds[n].s.skipped == Refusals(r, b + 1, n)
    decreases n
  {
    b := n - 1;
    assert IsStep(r, b);
    if r.worlds[b].s.generation == r.worlds[n].s.generation {
      var last := b;
      b := SkippedCountsRefusals(r, last);
    }
  }

  /** A frame is refused only while a target is waited for that it misses by 16 px or more in some dimension, or
      when it is empty. */
  lemma RefusedOnlyWhenMismatched(r: Run, i: nat) returns (b: nat)
    requires IsRun(r) && i < |r.steps| && Refuses(r, i)
    ensures b < i && r.steps[b].Apply? && r.worlds[b + 1].s.generation == r.worlds[i].s.generation
    ensures var s, f := r.worlds[i].s, r.steps[i];
            f.width == 0 || f.height == 0 || !Close(f.width, s.width) || !Close(f.height, s.height)
    ensures r.worlds[i + 1].s.skipped == Refusals(r, b + 1, i + 1)
  {
    assert IsStep(r, i);
    b := SkippedCountsRefusals(r, i);
  }

  // ---- What the last request says, in its own numbers ----

  /** The requests that end whatever was waited for. */
  predicate Supersedes(step: Step) { step.Reset? || step.Stop? || (step.Apply? && step.result.status != Unchanged) }

  /** Step b is the last of them before n. */
  predicate IsLast(r: Run, b: nat, n: nat)
    requires IsRun(r) && b < n <= |r.steps|
  {
    Supersedes(r.steps[b]) && forall k | b < k < n :: !Supersedes(r.steps[k])
  }

  /** The length asked for in one dimension: what was sent, or the normalised length when nothing was. */
  predicate Asks(sent: nat, normalized: nat, length: nat) {
    length > 0 && (sent > 0 ==> length == sent) && (sent == 0 ==> length == normalized)
  }

  predicate OpensFor(step: Step, width: nat, height: nat) {
    && step.Apply? && step.result.status == Sent
    && Asks(step.result.sentWidth, step.result.normalizedWidth, width)
    && Asks(step.result.sentHeight, step.result.normalizedHeight, height)
  }

  /** A frame that is not empty and at most 15 px off in both dimensions. */
  predicate Fits(step: Step, width: nat, height: nat) {
    && step.Frame? && step.width > 0 && step.height > 0
    && -15 <= step.width - width <= 15 && -15 <= step.height - height <= 15
  }

  /** The worker, armed for what step b began, looks at least two seconds after b. */
  predicate Late(r: Run, b: nat, k: nat)
    requires IsRun(r) && b < k < |r.steps|
  {
    && r.steps[k].Wake? && r.worlds[k].worker.Armed?
    && r.worlds[k].worker.generation == r.worlds[b].s.generation + 1 && r.times[k] >= r.times[b] + 2000
  }

  predicate Ends(r: Run, b: nat, k: nat, width: nat, height: nat)
    requires IsRun(r) && b < k < |r.steps|
  {
    Fits(r.steps[k], width, height) || Late(r, b, k)
  }

  /** Nothing ended the wait from b up to n. */
  predicate StillOpen(r: Run, b: nat, n: nat, width: nat, height: nat)
    requires IsRun(r) && b < n <= |r.steps|
  {
    forall k | b < k < n :: !Ends(r, b, k, width, height)
  }

  /** The frames that arrived in the steps from b up to n. */
  function Frames(r: Run, b: nat, n: nat): nat
    requires IsRun(r) && b <= n <= |r.steps|
    decreases n
  {
    if b == n then 0 else Frames(r, b, n - 1) + if r.steps[n - 1].Frame? then 1 else 0
  }

  /** Step k is the one that ended the wait. */
  predicate EndedAt(r: Run, b: nat, k: nat, n: nat, width: nat, height: nat)
    requires IsRun(r) && b < n <= |r.steps|
  {
    b < k < n && Ends(r, b, k, width, height) && StillOpen(r, b, k, width, height)
  }

  lemma BeforeAnyRequest(r: Run, n: nat)
    requires IsRun(r) && n <= |r.steps| && forall k | 0 <= k < n :: !Supersedes(r.steps[k])
    ensures r.worlds[n].s == State(Idle, 0, 0, 0, 0, 0, false)
  {
    if n > 0 {
      BeforeAnyRequest(r, n - 1);
      assert IsStep(r, n - 1);
    }
  }

  /** After a request that opens no wait: nothing is waited for, whatever frames and wakes follow. */
  lemma {:induction false} ClosedByTheLastRequest(r: Run, b: nat, n: nat)
    requires IsRun(r) && b < n <= |r.steps| && IsLast(r, b, n)
    requires forall width, height: nat :: !OpensFor(r.steps[b], width, height)
    ensures r.worlds[n].s.generation == r.worlds[b].s.generation + 1
    ensures r.worlds[n].s.wait == if r.steps[b].Apply? then Fallback else Idle
    ensures !r.steps[b].Stop? ==> r.worlds[n].s.width == r.worlds[n].s.height == r.worlds[n].s.skipped == 0
    decreases n
  {
    assert IsStep(r, n - 1);
    if n == b + 1 {
      if r.steps[b].Apply? {
        var a := r.steps[b].result;
        var width, height := OrElse(a.sentWidth, a.normalizedWidth), OrElse(a.sentHeight, a.normalizedHeight);
        assert !OpensFor(r.steps[b], width, height);
      }
    } else {
      ClosedByTheLastRequest(r, b, n - 1);
    }
  }

  lemma StepOfAWait(w: World, step: Step, now: nat)
    requires WorkerInv(w) && w.s.wait.WaitingForTarget? && !Supersedes(step)
    ensures Next(w, step, now).s ==
              if Fits(step, w.s.width, w.s.height) then w.s.(wait := Idle, skipped := 0)
              else if step.Frame? then w.s.(skipped := w.s.skipped + 1)
              else if step.Wake? && w.worker.Armed? && w.worker.generation == w.s.generation && now >= w.s.deadline
              then w.s.(wait := Fallback)
              else w.s
  {
  }

  /** After a request that opens a wait for a size: the size waited for is that size, for two seconds after the
      request, and the wait is on exactly as long as no frame fitted and no armed worker came late. What ended it
      first decides: a fitting frame leaves nothing waited for, a late worker the fallback. */
  lemma {:induction false} OpenedByTheLastRequest(r: Run, b: nat, n: nat, width: nat, height: nat)
    requires IsRun(r) && b < n <= |r.steps| && IsLast(r, b, n) && OpensFor(r.steps[b], width, height)
    ensures r.worlds[n].s.generation == r.worlds[b].s.generation + 1
    ensures r.worlds[n].s.width == width && r.worlds[n].s.height == height
    ensures r.worlds[n].s.deadline == r.times[b] + 2000
    ensures r.worlds[n].s.wait.WaitingForTarget? <==> StillOpen(r, b, n, width, height)
    ensures r.worlds[n].s.wait.WaitingForTarget? ==> r.worlds[n].s.skipped == Frames(r, b + 1, n)
    ensures forall k: nat | EndedAt(r, b, k, n, width, height) ::
              r.worlds[n].s.wait == if Late(r, b, k) then Fallback else Idle
    decreases n
  {
    var last := n - 1;
    assert IsStep(r, last);
    if last > b {
      OpenedByTheLastRequest(r, b, last, width, height);
      RunKeepsWorkerInv(r, last);
      if StillOpen(r, b, last, width, height) {
        StepOfAWait(r.worlds[last], r.steps[last], r.times[last]);
        assert r.worlds[n].s.wait.WaitingForTarget? <==> !Ends(r, b, last, width, height);
        assert StillOpen(r, b, n, width, height) <==> !Ends(r, b, last, width, height);
      }
    }
  }

  // ---- The worker gets there ----

  /** How many wakes away the worker is from being armed for the generation waited for. */
  function Behind(w: Worker, generation: nat): nat {
    match w
    case Armed(g, _) => if g == generation then 0 else 2
    case Resting => 1
    case _ => 2
  }

  lemma {:induction false} NotStopped(r: Run, n: nat)
    requires IsRun(r) && n <= |r.steps| && forall k | 0 <= k < n :: !r.steps[k].Stop?
    ensures !r.worlds[n].s.stopping && !r.worlds[n].worker.Ended?
  {
    if n > 0 {
      NotStopped(r, n - 1);
      assert IsStep(r, n - 1);
    }
  }

  /** While a generation is waited for, every wake brings the worker one nearer and nothing takes it back. */
  lemma {:induction false} WakesBringItNearer(r: Run, m: nat, n: nat, generation: nat)
    requires IsRun(r) && m <= n <= |r.steps| && (forall k | 0 <= k < n :: !r.steps[k].Stop?)
    requires forall k | m <= k <= n :: Waits(r.worlds[k], generation)
    ensures Behind(r.worlds[n].worker, generation) <= Behind(r.worlds[m].worker, generation)
    ensures m < n && r.steps[m].Wake? && Behind(r.worlds[m].worker, generation) > 0 ==>
              Behind(r.worlds[n].worker, generation) < Behind(r.worlds[m].worker, generation)
    decreases n
  {
    if m < n {
      WakesBringItNearer(r, m, n - 1, generation);
      NotStopped(r, n - 1);
      assert IsStep(r, n - 1);
    }
  }

  /** The wait ends: with the third wake of the worker after the request at the latest, if that wake is two seconds
      after the request or later (and the coordinator was not stopped before). */
  lemma WaitEndsByTheThirdWake(r: Run, b: nat, i: nat, j: nat, k: nat, width: nat, height: nat)
    requires IsRun(r) && b < i < j < k < |r.steps| && IsLast(r, b, k) && OpensFor(r.steps[b], width, height)
    requires r.steps[i].Wake? && r.steps[j].Wake? && r.steps[k].Wake? && r.times[k] >= r.times[b] + 2000
    requires forall l | 0 <= l < b :: !r.steps[l].Stop?
    ensures r.worlds[k + 1].s.wait.Fallback? || r.worlds[k + 1].s.wait.Idle?
    ensures !StillOpen(r, b, k + 1, width, height)
  {
    OpenedByTheLastRequest(r, b, k + 1, width, height);
    if StillOpen(r, b, k + 1, width, height) {
      var generation := r.worlds[b].s.generation + 1;
      forall l | b < l <= k ensures Waits(r.worlds[l], generation) {
        OpenedByTheLastRequest(r, b, l, width, height);
      }
      WakesBringItNearer(r, i, j, generation);
      WakesBringItNearer(r, j, k, generation);
      assert Late(r, b, k);
      assert false;
    }
  }

  // ---- The worker ends ----

  function FromEnd(w: Worker): nat { if w.Ended? then 0 else if w.Resting? then 1 else 2 }

  lemma {:induction false} StopBringsTheEndNearer(r: Run, m: nat, n: nat)
    requires IsRun(r) && m <= n <= |r.steps| && r.worlds[m].s.stopping
    ensures r.worlds[n].s.stopping && FromEnd(r.worlds[n].worker) <= FromEnd(r.worlds[m].worker)
    ensures m < n && r.steps[m].Wake? && FromEnd(r.worlds[m].worker) > 0 ==>
              FromEnd(r.worlds[n].worker) < FromEnd(r.worlds[m].worker)
    decreases n
  {
    if m < n {
      StopBringsTheEndNearer(r, m, n - 1);
      assert IsStep(r, n - 1);
    }
  }

  /** After a Stop the worker ends, with its second wake at the latest. */
  lemma WorkerEndsAfterAStop(r: Run, b: nat, i: nat, j: nat)
    requires IsRun(r) && b < i < j < |r.steps| && r.steps[b].Stop? && r.steps[i].Wake? && r.steps[j].Wake?
    ensures r.worlds[j + 1].worker.Ended?
  {
    assert IsStep(r, b);
    StopBringsTheEndNearer(r, b + 1, i);
    StopBringsTheEndNearer(r, i, j);
    StopBringsTheEndNearer(r, j, j + 1);
  }

  /** Without one it never does. */
  lemma {:induction false} WorkerEndsOnlyAfterAStop(r: Run, n: nat)
    requires IsRun(r) && n <= |r.steps| && (r.worlds[n].worker.Ended? || r.worlds[n].s.stopping)
    ensures exists b: nat :: b < n && r.steps[b].Stop?
  {
    assert n > 0;
    var k := n - 1;
    assert IsStep(r, k);
    if !r.steps[k].Stop? {
      WorkerEndsOnlyAfterAStop(r, k);
    }
  }
}
