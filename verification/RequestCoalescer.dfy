/** Debouncing display requests (session/rdp_display_request_coalescer.cpp): a worker forwards a scheduled request
    once nothing newer arrived for the delay; a flush forwards at once. Every method is one region held under the
    mutex; times are in milliseconds. */
module RequestCoalescer {

  const DELAY: nat := 200

  /** Requests are told apart by an id here; what they carry does not matter to the debounce. */
  type Request = nat

  datatype State = State(pending: bool, generation: nat, request: Request, stopping: bool)

  function Initial(): State { State(false, 0, 0, false) }

  /** Where the worker thread is: before its first wait, in its timed wait, forwarding, or done. */
  datatype Worker = Resting | Armed(generation: nat, deadline: nat) | Forwarding(request: Request) | Ended

  // ---- The regions as functions of the state ----

  function Scheduled(s: State, request: Request): State {
    s.(request := request, pending := true, generation := s.generation + 1)
  }

  function Flushed(s: State, request: Request): State {
    s.(request := request, pending := false, generation := s.generation + 1)
  }

  function Cancelled(s: State): State { s.(pending := false, generation := s.generation + 1) }

  function Stopped(s: State): State { s.(stopping := true, pending := false, generation := s.generation + 1) }

  predicate Interrupts(s: State, generation: nat) { s.stopping || !s.pending || s.generation != generation }

  /** One step of the worker at time `now`: the same worker and state when it has to keep waiting. */
  function Woken(s: State, w: Worker, now: nat): (State, Worker) {
    match w
    case Resting =>
      if s.stopping then (s, Ended) else if s.pending then (s, Armed(s.generation, now + DELAY)) else (s, w)
    case Armed(generation, deadline) =>
      if Interrupts(s, generation) then (s, Resting)
      else if now >= deadline then (s.(pending := false), Forwarding(s.request)) else (s, w)
    case Forwarding(_) => (s, Resting)
    case Ended => (s, w)
  }

  class Coalescer {
    var pending: bool
    var generation: nat
    var request: Request
    var stopping: bool

    ghost function Now(): State
      reads this
    {
      State(pending, generation, request, stopping)
    }

    constructor ()
      ensures Now() == Initial()
    {
      pending, generation, request, stopping := false, 0, 0, false;
    }

    method Schedule(r: Request)
      modifies this
      ensures Now() == Scheduled(old(Now()), r)
    {
      request := r;
      pending := true;
      generation := generation + 1;
    }

    /** Returns what is forwarded at once, after the lock is released. */
    method Flush(r: Request) returns (current: Request)
      modifies this
      ensures Now() == Flushed(old(Now()), r) && current == r
    {
      request := r;
      current := request;
      pending := false;
      generation := generation + 1;
    }

    method Cancel()
      modifies this
      ensures Now() == Cancelled(old(Now()))
    {
      pending := false;
      generation := generation + 1;
    }

    method Stop()
      modifies this
      ensures Now() == Stopped(old(Now()))
    {
      stopping := true;
      pending := false;
      generation := generation + 1;
    }

    method WorkerStep(w: Worker, now: nat) returns (w': Worker)
      modifies this`pending
      ensures (Now(), w') == Woken(old(Now()), w, now)
    {
      w' := w;
      match w {
        case Resting =>
          if stopping {
            w' := Ended;
          } else if pending {
            w' := Armed(generation, now + DELAY);
          }
        case Armed(gen, deadline) =>
          if stopping || !pending || generation != gen {
            w' := Resting;
          } else if now >= deadline {
            var taken := request;
            pending := false;
            w' := Forwarding(taken);
          }
        case Forwarding(_) =>
          w' := Resting;
        case Ended =>
      }
    }
  }

  // ---- Runs ----

  datatype Step = Schedule(request: Request) | Flush(request: Request) | Cancel | Stop | Wake

  datatype World = World(s: State, worker: Worker)

  function Next(w: World, step: Step, now: nat): World {
    match step
    case Schedule(r) => w.(s := Scheduled(w.s, r))
    case Flush(r) => w.(s := Flushed(w.s, r))
    case Cancel => w.(s := Cancelled(w.s))
    case Stop => w.(s := Stopped(w.s))
    case Wake => var (s, worker) := Woken(w.s, w.worker, now); World(s, worker)
  }

  /** Steps, the time each was taken at, and the worlds before, between and after them. */
  datatype Run = Run(steps: seq<Step>, times: seq<nat>, worlds: seq<World>)

  predicate IsStep(r: Run, i: nat)
    requires i < |r.steps| == |r.times| && |r.worlds| == |r.steps| + 1
  {
    r.worlds[i + 1] == Next(r.worlds[i], r.steps[i], r.times[i])
  }

  predicate IsRun(r: Run) {
    && |r.times| == |r.steps| && |r.worlds| == |r.steps| + 1
    && r.worlds[0] == World(Initial(), Resting)
    && (forall i | 0 <= i < |r.steps| :: IsStep(r, i))
    && (forall i, k | 0 <= i <= k < |r.times| :: r.times[i] <= r.times[k])
  }

  /** The worker takes the pending request out at step i: it goes from waiting to forwarding. */
  predicate DequeuesAt(r: Run, i: nat)
    requires IsRun(r) && i < |r.steps|
  {
    r.steps[i].Wake? && !r.worlds[i].worker.Forwarding? && r.worlds[i + 1].worker.Forwarding?
  }

  /** Nobody but the worker acted from step b up to step n. */
  predicate Quiet(r: Run, b: nat, n: nat)
    requires IsRun(r) && b <= n <= |r.steps|
  {
    forall k | b <= k < n :: r.steps[k].Wake?
  }

  /** A pending request was set by the last call, which was a Schedule, and was not dequeued since. */
  lemma {:induction false} PendingIsTheLastScheduled(r: Run, n: nat) returns (b: nat)
    requires IsRun(r) && n <= |r.steps| && r.worlds[n].s.pending
    ensures b < n && r.steps[b] == Schedule(r.worlds[n].s.request) && Quiet(r, b + 1, n)
    ensures forall k | b < k < n :: !DequeuesAt(r, k)
    ensures r.worlds[n].s.generation == r.worlds[b].s.generation + 1
    decreases n
  {
    b := n - 1;
    assert IsStep(r, b);
    if r.steps[b].Wake? {
      b := PendingIsTheLastScheduled(r, b);
    }
  }

  lemma {:induction false} GenerationGrows(r: Run, m: nat, n: nat)
    requires IsRun(r) && m <= n <= |r.steps|
    ensures r.worlds[m].s.generation <= r.worlds[n].s.generation
    decreases n
  {
    if m < n {
      GenerationGrows(r, m, n - 1);
      assert IsStep(r, n - 1);
    }
  }

  /** The worker armed its wait at a step that saw the same generation, the delay before its deadline. */
  lemma {:induction false} WhenArmed(r: Run, n: nat) returns (a: nat)
    requires IsRun(r) && n <= |r.steps| && r.worlds[n].worker.Armed?
    ensures a < n && r.steps[a].Wake? && r.worlds[n].worker.deadline == r.times[a] + DELAY
    ensures r.worlds[a].s.generation == r.worlds[n].worker.generation && r.worlds[a].s.pending
    ensures r.worlds[a].worker.Resting?
    decreases n
  {
    a := n - 1;
    assert IsStep(r, a);
    if r.worlds[a].worker.Armed? {
      a := WhenArmed(r, a);
    }
  }

  /** What the worker dequeues at step n is the request of the last call before, which was a Schedule (at b): no
      Schedule, Flush or Cancel came after it, it was not dequeued before, and at least the delay went by since. */
  lemma DequeuesOnlyTheLatest(r: Run, n: nat) returns (b: nat)
    requires IsRun(r) && n < |r.steps| && DequeuesAt(r, n)
    ensures b < n && r.steps[b] == Schedule(r.worlds[n].s.request)
    ensures r.worlds[n + 1].worker == Forwarding(r.worlds[n].s.request) && !r.worlds[n + 1].s.pending
    ensures Quiet(r, b + 1, n)
    ensures forall k | b < k < n :: !DequeuesAt(r, k)
    ensures r.times[n] >= r.times[b] + DELAY
  {
    assert IsStep(r, n);
    b := PendingIsTheLastScheduled(r, n);
    var a := WhenArmed(r, n);
    if a <= b {
      GenerationGrows(r, a, b);
    }
    assert b < a;
  }

  /** Each Schedule is dequeued at most once: two dequeues come from two different Schedules. */
  lemma DequeuedAtMostOnce(r: Run, m: nat, n: nat) returns (bm: nat, bn: nat)
    requires IsRun(r) && m < n < |r.steps| && DequeuesAt(r, m) && DequeuesAt(r, n)
    ensures bm < m < bn < n && Quiet(r, bm + 1, m) && Quiet(r, bn + 1, n)
    ensures r.steps[bm] == Schedule(r.worlds[m].s.request) && r.steps[bn] == Schedule(r.worlds[n].s.request)
  {
    bm := DequeuesOnlyTheLatest(r, m);
    bn := DequeuesOnlyTheLatest(r, n);
  }

  /** After a Cancel or a Flush no earlier request is dequeued: whatever is dequeued later was scheduled later. */
  lemma NothingEarlierAfterCancel(r: Run, c: nat, n: nat) returns (b: nat)
    requires IsRun(r) && c < n < |r.steps| && DequeuesAt(r, n)
    requires r.steps[c].Cancel? || r.steps[c].Flush? || r.steps[c].Stop?
    ensures c < b < n && r.steps[b] == Schedule(r.worlds[n].s.request)
  {
    b := DequeuesOnlyTheLatest(r, n);
  }

  // ---- Exactly when a request is pending, and exactly when it is dequeued ----

  /** Step b scheduled a request, and up to n nobody called and nobody took it. */
  predicate Awaits(r: Run, b: nat, n: nat, request: Request)
    requires IsRun(r) && b < n <= |r.steps|
  {
    r.steps[b] == Schedule(request) && Quiet(r, b + 1, n) && forall k | b < k < n :: !DequeuesAt(r, k)
  }

  predicate NeverStopped(r: Run, n: nat)
    requires IsRun(r) && n <= |r.steps|
  {
    forall k | 0 <= k < n :: !r.steps[k].Stop?
  }

  /** A scheduled request is pending exactly until the next call or until it is dequeued. */
  lemma {:induction false} PendingExactlyWhile(r: Run, b: nat, n: nat, request: Request)
    requires IsRun(r) && b < n <= |r.steps| && r.steps[b] == Schedule(request) && Quiet(r, b + 1, n)
    ensures r.worlds[n].s.pending <==> Awaits(r, b, n, request)
    ensures r.worlds[n].s.request == request && r.worlds[n].s.generation == r.worlds[b].s.generation + 1
    decreases n
  {
    var last := n - 1;
    assert IsStep(r, last);
    if last > b {
      PendingExactlyWhile(r, b, last, request);
      assert DequeuesAt(r, last) ==> r.worlds[last].s.pending && !r.worlds[n].s.pending;
      assert r.worlds[last].s.pending && !DequeuesAt(r, last) ==> r.worlds[n].s.pending;
    }
  }

  lemma {:induction false} StoppedExactlyWhen(r: Run, n: nat)
    requires IsRun(r) && n <= |r.steps|
    ensures r.worlds[n].s.stopping <==> !NeverStopped(r, n)
    ensures r.worlds[n].worker.Ended? ==> r.worlds[n].s.stopping
  {
    if n > 0 {
      StoppedExactlyWhen(r, n - 1);
      assert IsStep(r, n - 1);
    }
  }

  /** The worker, resting while the request of step b was pending, looked at step a and armed its delay. */
  predicate ArmsAt(r: Run, b: nat, a: nat, n: nat)
    requires IsRun(r) && n <= |r.steps|
  {
    b < a < n && r.steps[a].Wake? && r.worlds[a].worker.Resting?
  }

  lemma {:induction false} StaysArmed(r: Run, b: nat, a: nat, n: nat, request: Request)
    requires IsRun(r) && b < n <= |r.steps| && Awaits(r, b, n, request) && NeverStopped(r, n) && ArmsAt(r, b, a, n)
    ensures r.worlds[n].worker == Armed(r.worlds[b].s.generation + 1, r.times[a] + 200)
    decreases n
  {
    var last := n - 1;
    assert IsStep(r, last);
    PendingExactlyWhile(r, b, last, request);
    StoppedExactlyWhen(r, last);
    assert r.steps[last].Wake? && !DequeuesAt(r, last);
    if a < last {
      StaysArmed(r, b, a, last, request);
    }
  }

  /** The request of step b is dequeued at step n exactly when this is a wake, the coalescer was not stopped, and the
      worker came to rest and looked again after b, 200 ms or more before n. */
  lemma DequeuesExactlyWhen(r: Run, b: nat, n: nat, request: Request)
    requires IsRun(r) && b < n < |r.steps| && Awaits(r, b, n, request)
    ensures DequeuesAt(r, n) <==>
              && r.steps[n].Wake? && NeverStopped(r, n)
              && exists a: nat :: ArmsAt(r, b, a, n) && r.times[n] >= r.times[a] + 200
    ensures DequeuesAt(r, n) ==> r.worlds[n + 1].worker == Forwarding(request)
  {
    assert IsStep(r, n);
    PendingExactlyWhile(r, b, n, request);
    StoppedExactlyWhen(r, n);
    if DequeuesAt(r, n) {
      var a := WhenArmed(r, n);
      if a <= b {
        GenerationGrows(r, a, b);
      }
      assert ArmsAt(r, b, a, n);
    }
    if a: nat :| NeverStopped(r, n) && ArmsAt(r, b, a, n) && r.times[n] >= r.times[a] + 200 {
      StaysArmed(r, b, a, n, request);
    }
  }

  /** How many wakes away the worker is from waiting out the delay of this generation. */
  function Behind(w: Worker, generation: nat): nat {
    match w
    case Armed(g, _) => if g == generation then 0 else 2
    case Resting => 1
    case _ => 2
  }

  /** From step m on the worker comes nearer with every wake, and a wake that finds it resting arms it. */
  lemma {:induction false} WakesBringItNearer(r: Run, b: nat, m: nat, n: nat, request: Request)
    requires IsRun(r) && b < m <= n <= |r.steps| && Awaits(r, b, n, request) && NeverStopped(r, n)
    ensures var generation := r.worlds[b].s.generation + 1;
            && Behind(r.worlds[n].worker, generation) <= Behind(r.worlds[m].worker, generation)
            && (m < n && Behind(r.worlds[m].worker, generation) > 0 ==>
                  Behind(r.worlds[n].worker, generation) < Behind(r.worlds[m].worker, generation))
    decreases n
  {
    if m < n {
      WakesBringItNearer(r, b, m, n - 1, request);
      PendingExactlyWhile(r, b, n - 1, request);
      StoppedExactlyWhen(r, n - 1);
      assert IsStep(r, n - 1);
      assert r.steps[n - 1].Wake? && !DequeuesAt(r, n - 1);
    }
  }

  lemma {:induction false} FirstDequeue(r: Run, b: nat, n: nat, request: Request) returns (k: nat)
    requires IsRun(r) && b < n <= |r.steps| && r.steps[b] == Schedule(request) && Quiet(r, b + 1, n)
    requires !Awaits(r, b, n, request)
    ensures b < k < n && DequeuesAt(r, k) && Awaits(r, b, k, request)
    decreases n
  {
    k := n - 1;
    if !Awaits(r, b, k, request) {
      k := FirstDequeue(r, b, k, request);
    }
  }

  lemma ArmedByTheSecondWake(r: Run, b: nat, n: nat, request: Request) returns (a: nat)
    requires IsRun(r) && b + 3 <= n <= |r.steps| && Awaits(r, b, n, request) && NeverStopped(r, n)
    ensures b < a < b + 3 && r.steps[a].Wake? && r.worlds[a].worker.Resting?
  {
    WakesBringItNearer(r, b, b + 1, b + 2, request);
    WakesBringItNearer(r, b, b + 2, b + 3, request);
    a := WhenArmed(r, b + 3);
    if a <= b {
      GenerationGrows(r, a, b);
    }
  }

  /** A request with no call after it is dequeued: with the third wake at the latest, if that wake comes 200 ms
      after the second (and the coalescer was not stopped before). */
  lemma DequeuedByTheThirdWake(r: Run, b: nat, n: nat, request: Request)
    requires IsRun(r) && b + 3 <= n < |r.steps| && r.steps[b] == Schedule(request) && Quiet(r, b + 1, n + 1)
    requires NeverStopped(r, n) && r.times[n] >= r.times[b + 2] + 200
    ensures exists k: nat :: b < k <= n && DequeuesAt(r, k) && r.worlds[k + 1].worker == Forwarding(request)
  {
    if Awaits(r, b, n, request) {
      var a := ArmedByTheSecondWake(r, b, n, request);
      assert ArmsAt(r, b, a, n) && r.times[a] <= r.times[b + 2];
      DequeuesExactlyWhen(r, b, n, request);
    } else {
      var k := FirstDequeue(r, b, n, request);
      DequeuesExactlyWhen(r, b, k, request);
    }
  }

  // ---- The worker ends ----

  function FromEnd(w: Worker): nat { if w.Ended? then 0 else if w.Resting? then 1 else 2 }

  lemma {:induction false} StopBringsTheEndNearer(r: Run, m: nat, n: nat)
    requires IsRun(r) && m <= n <= |r.steps| && r.worlds[m].s.stopping
    ensures r.worlds[n].s.stopping && FromEnd(r.worlds[n].worker) <= FromEnd(r.worlds[m].worker)
    ensures m < n && r.steps[m].Wake? && FromEnd(r.worlds[m].worker) > 0 ==>
              FromEnd(r.worlds[n].worker) < FromEnd(r.worlds[m].worker)
    decreases n
  {
    if m < n {
      StopBringsTheEndNearer(r, m, n - 1);
      assert IsStep(r, n - 1);
    }
  }

  /** After a Stop the worker ends, with its second wake at the latest. */
  lemma WorkerEndsAfterAStop(r: Run, b: nat, i: nat, j: nat)
    requires IsRun(r) && b < i < j < |r.steps| && r.steps[b].Stop? && r.steps[i].Wake? && r.steps[j].Wake?
    ensures r.worlds[j + 1].worker.Ended?
  {
    assert IsStep(r, b);
    StopBringsTheEndNearer(r, b + 1, i);
    StopBringsTheEndNearer(r, i, j);
    StopBringsTheEndNearer(r, j, j + 1);
  }

  /** Without one it never does. */
  lemma {:induction false} WorkerEndsOnlyAfterAStop(r: Run, n: nat)
    requires IsRun(r) && n <= |r.steps| && (r.worlds[n].worker.Ended? || r.worlds[n].s.stopping)
    ensures exists b: nat :: b < n && r.steps[b].Stop?
  {
    assert n > 0;
    var k := n - 1;
    assert IsStep(r, k);
    if !r.steps[k].Stop? {
      WorkerEndsOnlyAfterAStop(r, k);
    }
  }
}
