/** Runs of the AVC420 worker queue: enqueuers, worker, clears and late drop accounting in any order, within one
    enabled epoch. */
module Avc420WorkerRun {
  import opened Avc420WorkerQueue

  // ---- The retained composite ----

  /** One draw: the commands fed to the decoder so far. The decoder shows the last of them, and the rectangles of
      that command say where. */
  type Layer = fed: seq<Command> | fed != [] witness [Command(0, 0, 0, [], [])]

  /** A texture that was cleared and then drawn over. */
  datatype Composite = Composite(width: nat, height: nat, layers: seq<Layer>)

  /** `surfaceWidth` and `surfaceHeight` are what the last Ensure set. */
  datatype Renderer = Renderer(surfaceWidth: nat, surfaceHeight: nat, composite: Composite, fed: seq<Command>)

  function NewRenderer(): Renderer { Renderer(0, 0, Composite(0, 0, []), []) }

  /** Rectangles that are empty or stick out of the surface are skipped. */
  predicate IsDrawable(r: Rect, width: nat, height: nat) { r.left < r.right <= width && r.top < r.bottom <= height }

  predicate DrawsRect(r: Rect, width: nat, height: nat, x: nat, y: nat) {
    IsDrawable(r, width, height) && r.left <= x < r.right && r.top <= y < r.bottom
  }

  predicate DrawsAny(rects: seq<Rect>, width: nat, height: nat, x: nat, y: nat) {
    exists i :: 0 <= i < |rects| && DrawsRect(rects[i], width, height, x, y)
  }

  predicate Draws(c: Command, x: nat, y: nat) { DrawsAny(c.rects, c.width, c.height, x, y) }

  /** A rectangle that contains the place and does not stick out of the surface. */
  predicate FitsAround(r: Rect, width: nat, height: nat, x: nat, y: nat) {
    r.left <= x < r.right <= width && r.top <= y < r.bottom <= height
  }

  /** A command draws exactly where one of its rectangles that does not stick out of its surface is. */
  lemma DrawsWhereARectFits(c: Command, x: nat, y: nat)
    ensures Draws(c, x, y) <==> exists i :: 0 <= i < |c.rects| && FitsAround(c.rects[i], c.width, c.height, x, y)
  {
    forall i | 0 <= i < |c.rects|
      ensures DrawsRect(c.rects[i], c.width, c.height, x, y) <==> FitsAround(c.rects[i], c.width, c.height, x, y)
    {
    }
  }

  /** The colour a composite shows at a place, for a decoder given as what it shows after the commands fed to it:
      the top layer drawing there, else black (0). */
  function Colour(layers: seq<Layer>, decode: (seq<Command>, nat, nat) -> nat, x: nat, y: nat): nat {
    if layers == [] then 0
    else
      var top := layers[|layers| - 1];
      if Draws(top[|top| - 1], x, y) then decode(top, x, y) else Colour(layers[..|layers| - 1], decode, x, y)
  }

  function Ensured(r: Renderer, width: nat, height: nat): Renderer {
    if width == 0 || height == 0 then r else r.(surfaceWidth := width, surfaceHeight := height)
  }

  /** A cleared composite when its size is not the surface's. */
  function Base(r: Renderer): Composite {
    if r.composite.width == r.surfaceWidth && r.composite.height == r.surfaceHeight then r.composite
    else Composite(r.surfaceWidth, r.surfaceHeight, [])
  }

  /** One command that decodes and composites. */
  function Composited(r: Renderer, c: Command): Renderer {
    var ready := Ensured(r, c.width, c.height);
    var fed := r.fed + [c];
    var base := Base(ready);
    ready.(fed := fed, composite := base.(layers := base.layers + [fed]))
  }

  /** One task of the worker. A Prewarm or an EndFrame may have set any surface size (`seen`), or none. */
  function Worked(r: Renderer, t: Task, seen: (nat, nat)): Renderer {
    match t
    case SurfaceCommand(c) => Composited(r, c)
    case Prewarm(_, _) => Ensured(r, seen.0, seen.1)
    case EndFrame(_, _, _) => Ensured(r, seen.0, seen.1)
  }

  function Drained(r: Renderer, q: seq<Task>, seen: nat -> (nat, nat)): Renderer {
    if q == [] then r
    else Worked(Drained(r, q[..|q| - 1], seen), q[|q| - 1], seen(|q| - 1))
  }

  /** The reference: composite the commands one after the other, nothing else. */
  function Drawn(r: Renderer, cs: seq<Command>): Renderer {
    if cs == [] then r else Composited(Drawn(r, cs[..|cs| - 1]), cs[|cs| - 1])
  }

  predicate AllSized(cs: seq<Command>) { forall i | 0 <= i < |cs| :: cs[i].width > 0 && cs[i].height > 0 }

  predicate SameRetained(a: Renderer, b: Renderer) { a.composite == b.composite && a.fed == b.fed }

  lemma {:induction false} DrainDrawsTheCommands(r: Renderer, q: seq<Task>, seen: nat -> (nat, nat))
    requires AllSized(Commands(q))
    ensures SameRetained(Drained(r, q, seen), Drawn(r, Commands(q)))
  {
    if q != [] {
      var front, t := q[..|q| - 1], q[|q| - 1];
      var cs := Commands(front);
      assert Commands(q) == cs + CommandIn(t);
      SizedPrefix(cs, CommandIn(t));
      DrainDrawsTheCommands(r, front, seen);
      if t.SurfaceCommand? {
        assert (cs + [t.command])[..|cs|] == cs;
        assert Commands(q)[|cs|] == t.command;
        OneCommand(Drained(r, front, seen), Drawn(r, cs), t.command);
      } else {
        assert Commands(q) == cs;
      }
    }
  }

  lemma SizedPrefix(a: seq<Command>, b: seq<Command>)
    requires AllSized(a + b)
    ensures AllSized(a)
  {
    forall i | 0 <= i < |a| ensures a[i].width > 0 && a[i].height > 0 { assert a[i] == (a + b)[i]; }
  }

  lemma OneCommand(a: Renderer, b: Renderer, c: Command)
    requires SameRetained(a, b) && c.width > 0 && c.height > 0
    ensures SameRetained(Composited(a, c), Composited(b, c))
  {
  }

  /** Draining a queue and draining its compaction show the same colour at every place, whatever the decoder shows
      and whatever surface sizes the Prewarms and EndFrames leave behind. */
  lemma CompactionKeepsTheComposite(r: Renderer, q: seq<Task>, seen: nat -> (nat, nat), seen': nat -> (nat, nat),
                                    decode: (seq<Command>, nat, nat) -> nat, x: nat, y: nat)
    requires AllSized(Commands(q))
    ensures SameRetained(Drained(r, q, seen), Drained(r, Compacted(q), seen'))
    ensures Colour(Drained(r, q, seen).composite.layers, decode, x, y)
         == Colour(Drained(r, Compacted(q), seen').composite.layers, decode, x, y)
  {
    CompactionKeepsTheCommands(q, CommandKind);
    DrainDrawsTheCommands(r, q, seen);
    DrainDrawsTheCommands(r, Compacted(q), seen');
  }

  // ---- What the reference shows ----

  predicate SameSizeSince(cs: seq<Command>, k: nat)
    requires k < |cs|
  {
    forall i | k <= i < |cs| :: cs[i].width == cs[k].width && cs[i].height == cs[k].height
  }

  /** All commands were fed, and the composite has the size of the last. */
  lemma {:induction false} DrawnIsFed(cs: seq<Command>)
    requires AllSized(cs)
    ensures Drawn(NewRenderer(), cs).fed == cs
    ensures cs != [] ==>
              var c := Drawn(NewRenderer(), cs).composite;
              c.width == cs[|cs| - 1].width && c.height == cs[|cs| - 1].height
  {
    if cs != [] {
      var front, last := cs[..|cs| - 1], cs[|cs| - 1];
      assert cs == front + [last];
      SizedPrefix(front, [last]);
      DrawnIsFed(front);
    }
  }

  /** What one more command does to the layers: it starts afresh on another size, and puts its own on top. */
  lemma OneMoreLayer(cs: seq<Command>)
    requires AllSized(cs) && cs != []
    ensures var n := |cs| - 1;
            var before, after := Drawn(NewRenderer(), cs[..n]).composite.layers,
                                 Drawn(NewRenderer(), cs).composite.layers;
            after == (if n > 0 && cs[n].width == cs[n - 1].width && cs[n].height == cs[n - 1].height then before
                      else [])
                     + [cs]
  {
    var front, last := cs[..|cs| - 1], cs[|cs| - 1];
    assert cs == front + [last];
    SizedPrefix(front, [last]);
    DrawnIsFed(front);
  }

  lemma ColourOnTop(layers: seq<Layer>, top: Layer, decode: (seq<Command>, nat, nat) -> nat, x: nat, y: nat)
    ensures Colour(layers + [top], decode, x, y) ==
            if Draws(top[|top| - 1], x, y) then decode(top, x, y) else Colour(layers, decode, x, y)
  {
    assert (layers + [top])[..|layers|] == layers;
  }

  /** Drawing commands one after the other shows at a place what the decoder showed after the last command that draws
      there, as long as the size has stayed since, ... */
  lemma {:induction false} LastDrawerShows(cs: seq<Command>, k: nat, decode: (seq<Command>, nat, nat) -> nat,
                                           x: nat, y: nat)
    requires AllSized(cs) && k < |cs| && SameSizeSince(cs, k) && Draws(cs[k], x, y)
    requires forall i | k < i < |cs| :: !Draws(cs[i], x, y)
    ensures Colour(Drawn(NewRenderer(), cs).composite.layers, decode, x, y) == decode(cs[..k + 1], x, y)
  {
    var n := |cs| - 1;
    OneMoreLayer(cs);
    if k == n {
      assert cs[..k + 1] == cs;
      ColourOnTop(if n > 0 && cs[n].width == cs[n - 1].width && cs[n].height == cs[n - 1].height
                  then Drawn(NewRenderer(), cs[..n]).composite.layers else [], cs, decode, x, y);
    } else {
      var front := cs[..n];
      assert cs == front + [cs[n]] && front[..k + 1] == cs[..k + 1];
      SizedPrefix(front, [cs[n]]);
      LastDrawerShows(front, k, decode, x, y);
      ColourOnTop(Drawn(NewRenderer(), front).composite.layers, cs, decode, x, y);
    }
  }

  /** ... and black when no command since the last change of size draws there. */
  lemma {:induction false} NothingDrawnIsBlack(cs: seq<Command>, s: nat, decode: (seq<Command>, nat, nat) -> nat,
                                               x: nat, y: nat)
    requires AllSized(cs) && s < |cs| && SameSizeSince(cs, s)
    requires s == 0 || cs[s].width != cs[s - 1].width || cs[s].height != cs[s - 1].height
    requires forall i | s <= i < |cs| :: !Draws(cs[i], x, y)
    ensures Colour(Drawn(NewRenderer(), cs).composite.layers, decode, x, y) == 0
  {
    var n := |cs| - 1;
    OneMoreLayer(cs);
    if s == n {
      ColourOnTop([], cs, decode, x, y);
    } else {
      var front := cs[..n];
      assert cs == front + [cs[n]];
      SizedPrefix(front, [cs[n]]);
      NothingDrawnIsBlack(front, s, decode, x, y);
      ColourOnTop(Drawn(NewRenderer(), front).composite.layers, cs, decode, x, y);
    }
  }

  // ---- Runs ----

  /** `late` holds drops not yet accounted for; `accepted` and `done` are the commands the enqueuers took and the
      worker finished. */
  datatype World = World(s: QueueState, inFlight: seq<Task>, late: Counts, renderer: Renderer,
                         accepted: seq<Command>, done: seq<Command>)

  function Start(): World { World(EmptyQueue(), [], Zero(), NewRenderer(), [], []) }

  datatype Step =
    | Enqueue(task: Task)
    | Account(drops: Counts)
    | Pop
    | Finish(seen: (nat, nat))
    | Clear

  predicate AtMost(a: Counts, b: Counts) {
    a.prewarms <= b.prewarms && a.commands <= b.commands && a.endFrames <= b.endFrames
  }

  function Minus(a: Counts, b: Counts): Counts
    requires AtMost(b, a)
  {
    Counts(a.prewarms - b.prewarms, a.commands - b.commands, a.endFrames - b.endFrames)
  }

  predicate Enabled(w: World, step: Step) {
    match step
    case Enqueue(_) => true
    case Account(d) => AtMost(d, w.late)
    case Pop => w.inFlight == [] && w.s.queue != []
    case Finish(_) => w.inFlight != []
    case Clear => true
  }

  function Next(w: World, step: Step): World
    requires Enabled(w, step)
  {
    match step
    case Enqueue(t) =>
      w.(s := Enqueued(w.s, t), late := w.late.Plus(EnqueueDrops(w.s.queue, t)),
         accepted := w.accepted + if Takes(w.s.queue, t) then CommandIn(t) else [])
    case Account(d) => w.(s := Accounted(w.s, d), late := Minus(w.late, d))
    case Pop => w.(s := w.s.(queue := w.s.queue[1..]), inFlight := [w.s.queue[0]])
    case Finish(seen) =>
      var t := w.inFlight[0];
      w.(s := w.s.(processed := w.s.processed.PlusOne(KindOf(t))), inFlight := w.inFlight[1..],
         renderer := Worked(w.renderer, t, seen), done := w.done + CommandIn(t))
    case Clear => w.(s := w.s.(queue := []), late := w.late.Plus(CountAll(w.s.queue)))
  }

  function Dropped(s: QueueState, k: Kind): nat {
    match k
    case PrewarmKind => 0
    case CommandKind => s.droppedCommands
    case EndFrameKind => s.droppedEndFrames
  }

  /** For one kind: queued = processed + dropped + dropped and not yet accounted for + still queued + in flight. */
  predicate Accounts(w: World, k: Kind) {
    w.s.queued.Of(k)
      == w.s.processed.Of(k) + Dropped(w.s, k) + w.late.Of(k) + Count(w.s.queue, k) + Count(w.inFlight, k)
  }

  predicate Bounded(w: World) {
    && WithinBounds(w.s.queue)
    && |w.s.queue| <= w.s.maxDepth <= MAX_WORKER_TASKS
    && |w.inFlight| <= 1
  }

  lemma SingleCount(q: seq<Task>, k: Kind)
    ensures q == [] ==> Count(q, k) == 0 && Commands(q) == []
    ensures |q| == 1 ==> Count(q, k) == (if KindOf(q[0]) == k then 1 else 0) && Commands(q) == CommandIn(q[0])
  {
    if |q| == 1 {
      PopAccounts(q, k);
      assert q[1..] == [];
    }
  }

  /** What an enqueuer does to the counters. */
  lemma EnqueueCounters(s: QueueState, t: Task, k: Kind)
    ensures var s' := Enqueued(s, t);
            && s'.queued.Of(k) == s.queued.Of(k) + (if Takes(s.queue, t) && KindOf(t) == k then 1 else 0)
            && s'.processed == s.processed
            && s'.droppedCommands == s.droppedCommands && s'.droppedEndFrames == s.droppedEndFrames
            && (s.maxDepth <= MAX_WORKER_TASKS ==> s'.maxDepth <= MAX_WORKER_TASKS)
            && (|MadeRoom(s.queue, t)| <= s.maxDepth ==> |s'.queue| <= s'.maxDepth)
  {
  }

  lemma PlusOf(a: Counts, b: Counts, k: Kind)
    ensures a.Plus(b).Of(k) == a.Of(k) + b.Of(k)
  {
  }

  lemma SumsKeep(w: World, w': World, k: Kind, added: nat, lost: nat)
    requires Accounts(w, k) && w'.s.processed == w.s.processed && Dropped(w'.s, k) == Dropped(w.s, k)
    requires w'.s.queued.Of(k) == w.s.queued.Of(k) + added && w'.late.Of(k) == w.late.Of(k) + lost
    requires Count(w.s.queue, k) + added == Count(w'.s.queue, k) + lost && w'.inFlight == w.inFlight
    ensures Accounts(w', k)
  {
  }

  lemma EnqueueKeepsAccounts(w: World, t: Task, k: Kind)
    requires Accounts(w, k) && Bounded(w) && k != PrewarmKind
    ensures Accounts(Next(w, Enqueue(t)), k)
  {
    EnqueueAccounts(w.s, t, k);
    EnqueueCounters(w.s, t, k);
    PlusOf(w.late, EnqueueDrops(w.s.queue, t), k);
    SumsKeep(w, Next(w, Enqueue(t)), k, if Takes(w.s.queue, t) && KindOf(t) == k then 1 else 0,
             EnqueueDrops(w.s.queue, t).Of(k));
  }

  lemma EnqueueKeepsBounds(w: World, t: Task)
    requires Bounded(w)
    ensures Bounded(Next(w, Enqueue(t)))
  {
    EnqueueAccounts(w.s, t, EndFrameKind);
    RoomIsMade(w.s.queue, t, EndFrameKind);
    EnqueueCounters(w.s, t, EndFrameKind);
  }

  lemma OtherStepsKeep(w: World, step: Step, k: Kind)
    requires Accounts(w, k) && Bounded(w) && Enabled(w, step) && k != PrewarmKind && !step.Enqueue?
    ensures Accounts(Next(w, step), k) && Bounded(Next(w, step))
  {
    var next := Next(w, step);
    SingleCount(w.inFlight, k);
    SingleCount(next.inFlight, k);
    SingleCount(next.s.queue, k);
    SingleCount(next.s.queue, EndFrameKind);
    if step.Pop? {
      PopAccounts(w.s.queue, k);
      PopAccounts(w.s.queue, EndFrameKind);
    }
  }

  lemma StepKeeps(w: World, step: Step, k: Kind)
    requires Accounts(w, k) && Bounded(w) && Enabled(w, step) && k != PrewarmKind
    ensures Accounts(Next(w, step), k) && Bounded(Next(w, step))
  {
    if step.Enqueue? {
      EnqueueKeepsAccounts(w, step.task, k);
      EnqueueKeepsBounds(w, step.task);
    } else {
      OtherStepsKeep(w, step, k);
    }
  }

  lemma StartKeeps(k: Kind)
    ensures Accounts(Start(), k) && Bounded(Start())
  {
    SingleCount(Start().s.queue, k);
    SingleCount(Start().s.queue, EndFrameKind);
  }

  datatype Run = Run(steps: seq<Step>, worlds: seq<World>)

  predicate IsStep(r: Run, i: nat)
    requires i < |r.steps| && |r.worlds| == |r.steps| + 1
  {
    Enabled(r.worlds[i], r.steps[i]) && r.worlds[i + 1] == Next(r.worlds[i], r.steps[i])
  }

  predicate IsRun(r: Run) {
    && |r.worlds| == |r.steps| + 1
    && r.worlds[0] == Start()
    && forall i | 0 <= i < |r.steps| :: IsStep(r, i)
  }

  /** In every reachable state, for commands and for EndFrames separately, what was queued is processed, dropped,
      dropped and about to be accounted for, still queued, or in flight; the queue never exceeds 720 tasks or 24
      EndFrames. */
  lemma {:induction false} EveryTaskIsAccountedFor(r: Run, n: nat, k: Kind)
    requires IsRun(r) && n <= |r.steps| && k != PrewarmKind
    ensures Accounts(r.worlds[n], k) && Bounded(r.worlds[n])
  {
    if n == 0 {
      StartKeeps(k);
    } else {
      EveryTaskIsAccountedFor(r, n - 1, k);
      assert IsStep(r, n - 1);
      StepKeeps(r.worlds[n - 1], r.steps[n - 1], k);
    }
  }

  // ---- The order of the tasks ----

  /** The step at m put the task into the queue. */
  predicate Entered(r: Run, m: nat, t: Task)
    requires IsRun(r) && m < |r.steps|
  {
    r.steps[m] == Enqueue(t) && Takes(r.worlds[m].s.queue, t)
  }

  function PoppedAt(r: Run, n: nat): seq<Command>
    requires IsRun(r) && n < |r.steps|
  {
    assert IsStep(r, n);
    if r.steps[n].Pop? then CommandIn(r.worlds[n].s.queue[0]) else []
  }

  /** The commands the worker popped from step m on, before step n. */
  function Popped(r: Run, m: nat, n: nat): seq<Command>
    requires IsRun(r) && m <= n <= |r.steps|
  {
    if m == n then [] else Popped(r, m, n - 1) + PoppedAt(r, n - 1)
  }

  predicate NoClearBetween(r: Run, m: nat, n: nat)
    requires IsRun(r) && m <= n <= |r.steps|
  {
    forall k | m < k < n :: !r.steps[k].Clear?
  }

  /** The task at place i at n was enqueued at m, and exactly the commands that were queued then have been popped since
      or still stand before it. */
  predicate StandsSince(r: Run, n: nat, i: nat, m: nat)
    requires IsRun(r) && m < n <= |r.steps| && i < |r.worlds[n].s.queue|
  {
    && Entered(r, m, r.worlds[n].s.queue[i]) && NoClearBetween(r, m, n)
    && Popped(r, m + 1, n) + Commands(r.worlds[n].s.queue[..i]) == Commands(r.worlds[m].s.queue)
  }

  lemma JustEntered(r: Run, n: nat)
    requires IsRun(r) && n < |r.steps| && r.steps[n].Enqueue? && Bounded(r.worlds[n])
    requires Takes(r.worlds[n].s.queue, r.steps[n].task)
    ensures var room := MadeRoom(r.worlds[n].s.queue, r.steps[n].task);
            |r.worlds[n + 1].s.queue| == |room| + 1 && StandsSince(r, n + 1, |room|, n)
  {
    var s, t := r.worlds[n].s, r.steps[n].task;
    assert IsStep(r, n);
    TaskGoesLast(s, t);
    RoomIsMade(s.queue, t, CommandKind);
    assert [] + Commands(s.queue) == Commands(s.queue);
  }

  /** Where a task that is not new stood one step before. */
  lemma StoodBefore(r: Run, n: nat, i: nat) returns (k: nat)
    requires IsRun(r) && n < |r.steps| && i < |r.worlds[n + 1].s.queue| && !r.steps[n].Clear?
    requires r.steps[n].Enqueue? ==> i < |MadeRoom(r.worlds[n].s.queue, r.steps[n].task)|
    ensures var q, q' := r.worlds[n].s.queue, r.worlds[n + 1].s.queue;
            k < |q| && q[k] == q'[i] && Commands(q[..k]) == PoppedAt(r, n) + Commands(q'[..i])
  {
    var s, s' := r.worlds[n].s, r.worlds[n + 1].s;
    assert IsStep(r, n);
    k := i;
    if r.steps[n].Pop? {
      k := i + 1;
      PopAccounts(s.queue[..k], CommandKind);
      assert s.queue[..k][1..] == s.queue[1..][..i];
    } else {
      if r.steps[n].Enqueue? {
        var t, room := r.steps[n].task, MadeRoom(s.queue, r.steps[n].task);
        TaskGoesLast(s, t);
        assert s'.queue[..i] == room[..i] && s'.queue[i] == room[i];
        if Compacts(s.queue, t) {
          k := CompactedStandsAt(s.queue, i);
        }
      }
      assert [] + Commands(s'.queue[..i]) == Commands(s'.queue[..i]);
    }
  }

  lemma StandsOneMore(r: Run, n: nat, i: nat, m: nat, k: nat)
    requires IsRun(r) && m < n < |r.steps| && i < |r.worlds[n + 1].s.queue| && k < |r.worlds[n].s.queue|
    requires StandsSince(r, n, k, m) && !r.steps[n].Clear?
    requires r.worlds[n].s.queue[k] == r.worlds[n + 1].s.queue[i]
    requires Commands(r.worlds[n].s.queue[..k]) == PoppedAt(r, n) + Commands(r.worlds[n + 1].s.queue[..i])
    ensures StandsSince(r, n + 1, i, m)
  {
    var a, b, c := Popped(r, m + 1, n), PoppedAt(r, n), Commands(r.worlds[n + 1].s.queue[..i]);
    assert (a + b) + c == a + (b + c);
    assert Popped(r, m + 1, n + 1) == a + b;
  }

  /** In every run, every queued task was enqueued at some step, and of the commands only those queued at that step come
      before it, all of them and in their order: none overtakes it, whatever was compacted or refused since. */
  lemma {:induction false} TasksKeepTheirOrder(r: Run, n: nat, i: nat) returns (m: nat)
    requires IsRun(r) && n <= |r.steps| && i < |r.worlds[n].s.queue|
    ensures m < n && StandsSince(r, n, i, m)
    decreases n
  {
    assert n > 0;
    var p := n - 1;
    assert IsStep(r, p);
    EveryTaskIsAccountedFor(r, p, CommandKind);
    if r.steps[p].Enqueue? && i == |MadeRoom(r.worlds[p].s.queue, r.steps[p].task)| {
      TaskGoesLast(r.worlds[p].s, r.steps[p].task);
      JustEntered(r, p);
      m := p;
    } else {
      if r.steps[p].Enqueue? { TaskGoesLast(r.worlds[p].s, r.steps[p].task); }
      var k := StoodBefore(r, p, i);
      m := TasksKeepTheirOrder(r, p, k);
      StandsOneMore(r, p, i, m, k);
    }
  }

  /** When the worker pops a task, an EndFrame in particular, it has popped since the task was enqueued exactly the
      commands that were queued then. */
  lemma PoppedAfterItsCommands(r: Run, n: nat) returns (m: nat)
    requires IsRun(r) && n < |r.steps| && r.steps[n].Pop?
    ensures r.worlds[n].s.queue != []
    ensures m < n && Entered(r, m, r.worlds[n].s.queue[0]) && NoClearBetween(r, m, n)
    ensures Popped(r, m + 1, n) == Commands(r.worlds[m].s.queue)
  {
    assert IsStep(r, n);
    m := TasksKeepTheirOrder(r, n, 0);
    assert Popped(r, m + 1, n) + [] == Popped(r, m + 1, n);
  }

  // ---- The other counters ----

  function Refusals(r: Run, n: nat): nat
    requires IsRun(r) && n <= |r.steps|
  {
    if n == 0 then 0
    else Refusals(r, n - 1)
         + if r.steps[n - 1].Enqueue? && !Takes(r.worlds[n - 1].s.queue, r.steps[n - 1].task) then 1 else 0
  }

  /** The over-limit counter counts the refusals, and the recorded depth is the deepest the queue has been. */
  lemma {:induction false} RefusalsAndDepth(r: Run, n: nat) returns (deepest: nat)
    requires IsRun(r) && n <= |r.steps|
    ensures r.worlds[n].s.overLimit == Refusals(r, n)
    ensures deepest <= n && r.worlds[n].s.maxDepth == |r.worlds[deepest].s.queue|
    ensures forall k | 0 <= k <= n :: |r.worlds[k].s.queue| <= r.worlds[n].s.maxDepth
  {
    deepest := 0;
    if n > 0 {
      var s := r.worlds[n - 1].s;
      assert IsStep(r, n - 1);
      deepest := RefusalsAndDepth(r, n - 1);
      EveryTaskIsAccountedFor(r, n, CommandKind);
      if r.steps[n - 1].Enqueue? {
        TaskGoesLast(s, r.steps[n - 1].task);
        if r.worlds[n].s.maxDepth != s.maxDepth { deepest := n; }
      }
    }
  }

  function Reported(r: Run, n: nat, k: Kind): nat
    requires IsRun(r) && n <= |r.steps|
  {
    if n == 0 then 0
    else Reported(r, n - 1, k) + if r.steps[n - 1].Account? then r.steps[n - 1].drops.Of(k) else 0
  }

  /** For every kind, Prewarms too: queued = processed + reported as dropped + about to be reported + still queued + in
      flight. */
  lemma {:induction false} EveryKindIsAccountedFor(r: Run, n: nat, k: Kind)
    requires IsRun(r) && n <= |r.steps|
    ensures var w := r.worlds[n];
            w.s.queued.Of(k) ==
            w.s.processed.Of(k) + Reported(r, n, k) + w.late.Of(k) + Count(w.s.queue, k) + Count(w.inFlight, k)
  {
    if n == 0 {
      SingleCount(Start().s.queue, k);
    } else {
      EveryKindIsAccountedFor(r, n - 1, k);
      EveryTaskIsAccountedFor(r, n - 1, CommandKind);
      assert IsStep(r, n - 1);
      KindAddsUp(r.worlds[n - 1], r.steps[n - 1], k, Reported(r, n - 1, k));
    }
  }

  lemma KindAddsUp(w: World, step: Step, k: Kind, reported: nat)
    requires Bounded(w) && Enabled(w, step)
    requires w.s.queued.Of(k) ==
             w.s.processed.Of(k) + reported + w.late.Of(k) + Count(w.s.queue, k) + Count(w.inFlight, k)
    ensures var v := Next(w, step);
            v.s.queued.Of(k) ==
            v.s.processed.Of(k) + (reported + if step.Account? then step.drops.Of(k) else 0) + v.late.Of(k)
            + Count(v.s.queue, k) + Count(v.inFlight, k)
  {
    var v := Next(w, step);
    if step.Enqueue? {
      EnqueueAccounts(w.s, step.task, k);
      EnqueueCounters(w.s, step.task, k);
      PlusOf(w.late, EnqueueDrops(w.s.queue, step.task), k);
    } else {
      SingleCount(w.inFlight, k);
      SingleCount(v.inFlight, k);
      SingleCount(v.s.queue, k);
      if step.Pop? { PopAccounts(w.s.queue, k); }
    }
  }

  // ---- Runs without a clear: nothing of the picture is lost ----

  /** No clear, and no command of an empty size, which the renderer refuses. */
  predicate KeepsPicture(step: Step) {
    && !step.Clear?
    && (step.Enqueue? && step.task.SurfaceCommand? ==> step.task.command.width > 0 && step.task.command.height > 0)
  }

  predicate Faithful(w: World) {
    && AllSized(w.accepted)
    && w.done + (Commands(w.inFlight) + Commands(w.s.queue)) == w.accepted
    && SameRetained(w.renderer, Drawn(NewRenderer(), w.done))
  }

  lemma DrawnOneMore(cs: seq<Command>, c: Command)
    ensures Drawn(NewRenderer(), cs + [c]) == Composited(Drawn(NewRenderer(), cs), c)
  {
    assert (cs + [c])[..|cs|] == cs;
  }

  lemma Regroup(a: seq<Command>, b: seq<Command>, c: seq<Command>, d: seq<Command>)
    ensures a + (b + (c + d)) == (a + (b + c)) + d
    ensures (a + b) + c == a + (b + c)
    ensures [] + c == c
  {
  }

  lemma AcceptMore(done: seq<Command>, flying: seq<Command>, waiting: seq<Command>, added: seq<Command>,
                   accepted: seq<Command>)
    requires done + (flying + waiting) == accepted && AllSized(accepted) && AllSized(added)
    ensures done + (flying + (waiting + added)) == accepted + added && AllSized(accepted + added)
  {
    Regroup(done, flying, waiting, added);
  }

  lemma AcceptedGrows(w: World, t: Task, added: seq<Command>)
    requires Bounded(w) && KeepsPicture(Enqueue(t)) && added == if Takes(w.s.queue, t) then CommandIn(t) else []
    ensures Commands(Next(w, Enqueue(t)).s.queue) == Commands(w.s.queue) + added && AllSized(added)
  {
    EnqueueAccounts(w.s, t, CommandKind);
  }

  lemma EnqueueIsFaithful(w: World, t: Task)
    requires Faithful(w) && Bounded(w) && KeepsPicture(Enqueue(t))
    ensures Faithful(Next(w, Enqueue(t)))
  {
    var added := if Takes(w.s.queue, t) then CommandIn(t) else [];
    AcceptedGrows(w, t, added);
    AcceptMore(w.done, Commands(w.inFlight), Commands(w.s.queue), added, w.accepted);
  }

  /** Popping hands the front command over. */
  lemma PopMovesOn(w: World)
    requires Enabled(w, Pop)
    ensures var v := Next(w, Pop);
            Commands(v.inFlight) + Commands(v.s.queue) == Commands(w.inFlight) + Commands(w.s.queue)
  {
    var flying := Next(w, Pop).inFlight;
    PopAccounts(w.s.queue, CommandKind);
    SingleCount(flying, CommandKind);
    SingleCount(w.inFlight, CommandKind);
    assert Commands(w.inFlight) + Commands(w.s.queue) == Commands(w.s.queue);
  }

  lemma PopIsFaithful(w: World)
    requires Faithful(w) && Enabled(w, Pop)
    ensures Faithful(Next(w, Pop))
  {
    PopMovesOn(w);
  }

  lemma FinishIsFaithful(w: World, seen: (nat, nat))
    requires Faithful(w) && Bounded(w) && Enabled(w, Finish(seen))
    ensures Faithful(Next(w, Finish(seen)))
  {
    var t := w.inFlight[0];
    var rest := Commands(w.s.queue);
    SingleCount(w.inFlight, CommandKind);
    SingleCount(w.inFlight[1..], CommandKind);
    Regroup(w.done, CommandIn(t), rest, []);
    if t.SurfaceCommand? {
      assert t.command == w.accepted[|w.done|];
      DrawnOneMore(w.done, t.command);
      OneCommand(w.renderer, Drawn(NewRenderer(), w.done), t.command);
    } else {
      assert w.done + CommandIn(t) == w.done;
    }
  }

  lemma StepIsFaithful(w: World, step: Step)
    requires Faithful(w) && Bounded(w) && Enabled(w, step) && KeepsPicture(step)
    ensures Faithful(Next(w, step))
  {
    match step
    case Enqueue(t) => EnqueueIsFaithful(w, t);
    case Account(d) =>
    case Pop => PopIsFaithful(w);
    case Finish(seen) => FinishIsFaithful(w, seen);
  }

  lemma StartIsFaithful()
    ensures Faithful(Start())
  {
    SingleCount(Start().s.queue, CommandKind);
  }

  lemma {:induction false} RunIsFaithful(r: Run, n: nat)
    requires IsRun(r) && n <= |r.steps| && forall i | 0 <= i < n :: KeepsPicture(r.steps[i])
    ensures Faithful(r.worlds[n])
  {
    if n == 0 {
      StartIsFaithful();
    } else {
      RunIsFaithful(r, n - 1);
      EveryTaskIsAccountedFor(r, n - 1, CommandKind);
      assert IsStep(r, n - 1);
      StepIsFaithful(r.worlds[n - 1], r.steps[n - 1]);
    }
  }

  /** In a run whose commands all decode and composite, so that no clear happens, the worker has drawn the accepted
      commands in the order they were accepted, none missing, however often the backlog was compacted: what is
      left to draw is in flight or queued, and once both are empty the composite shows every command. */
  lemma CompositeShowsAcceptedCommands(r: Run, n: nat)
    requires IsRun(r) && n <= |r.steps| && forall i | 0 <= i < n :: KeepsPicture(r.steps[i])
    ensures var w := r.worlds[n];
            && w.done + (Commands(w.inFlight) + Commands(w.s.queue)) == w.accepted
            && SameRetained(w.renderer, Drawn(NewRenderer(), w.done))
            && (w.s.queue == [] && w.inFlight == [] ==> SameRetained(w.renderer, Drawn(NewRenderer(), w.accepted)))
  {
    RunIsFaithful(r, n);
    var w := r.worlds[n];
    SingleCount(w.s.queue, CommandKind);
    SingleCount(w.inFlight, CommandKind);
    if w.s.queue == [] && w.inFlight == [] {
      assert w.done + ([] + []) == w.done;
    }
  }
}
