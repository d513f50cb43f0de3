/** The worker queue of the AVC420 compositor (surface/avc420_gpu_compositor.cpp): three enqueuers, backlog
    compaction, clears and drop accounting. Every method is one region held under the worker mutex. */
module Avc420WorkerQueue {

  const MAX_WORKER_TASKS: nat := 720
  const END_FRAME_COALESCE_DEPTH: nat := 24

  datatype Rect = Rect(left: nat, top: nat, right: nat, bottom: nat)

  datatype Command = Command(frameId: nat, width: nat, height: nat, rects: seq<Rect>, payload: seq<nat>)

  datatype Task =
    | Prewarm(width: nat, height: nat)
    | SurfaceCommand(command: Command)
    | EndFrame(frameId: nat, activeFrameId: nat, matched: bool)

  datatype Kind = PrewarmKind | CommandKind | EndFrameKind

  function KindOf(t: Task): Kind {
    match t
    case Prewarm(_, _) => PrewarmKind
    case SurfaceCommand(_) => CommandKind
    case EndFrame(_, _, _) => EndFrameKind
  }

  /** One counter per kind of task. */
  datatype Counts = Counts(prewarms: nat, commands: nat, endFrames: nat) {
    function Of(k: Kind): nat {
      match k
      case PrewarmKind => prewarms
      case CommandKind => commands
      case EndFrameKind => endFrames
    }

    function Plus(more: Counts): Counts {
      Counts(prewarms + more.prewarms, commands + more.commands, endFrames + more.endFrames)
    }

    function PlusOne(k: Kind): Counts {
      match k
      case PrewarmKind => this.(prewarms := prewarms + 1)
      case CommandKind => this.(commands := commands + 1)
      case EndFrameKind => this.(endFrames := endFrames + 1)
    }
  }

  function Zero(): Counts { Counts(0, 0, 0) }

  /** How many tasks of one kind a queue holds. */
  function Count(q: seq<Task>, k: Kind): nat {
    if q == [] then 0 else Count(q[..|q| - 1], k) + if KindOf(q[|q| - 1]) == k then 1 else 0
  }

  function CountAll(q: seq<Task>): Counts {
    Counts(Count(q, PrewarmKind), Count(q, CommandKind), Count(q, EndFrameKind))
  }

  /** The commands of a queue, in order. */
  function Commands(q: seq<Task>): seq<Command> {
    if q == [] then [] else Commands(q[..|q| - 1]) + CommandIn(q[|q| - 1])
  }

  function CommandIn(t: Task): seq<Command> { if t.SurfaceCommand? then [t.command] else [] }

  function AsTasks(cs: seq<Command>): (q: seq<Task>)
    ensures |q| == |cs| && forall i | 0 <= i < |q| :: q[i] == SurfaceCommand(cs[i])
  {
    seq(|cs|, i requires 0 <= i < |cs| => SurfaceCommand(cs[i]))
  }

  predicate IsEndFrame(t: Task, matchedOnly: bool) { t.EndFrame? && (t.matched || !matchedOnly) }

  /** The last EndFrame among the first n tasks, or |q|. */
  function LastEndFrame(q: seq<Task>, n: nat, matchedOnly: bool): (k: nat)
    requires n <= |q|
    ensures k < n || k == |q|
    ensures k < n ==> IsEndFrame(q[k], matchedOnly) && forall i | k < i < n :: !IsEndFrame(q[i], matchedOnly)
    ensures k == |q| ==> forall i | 0 <= i < n :: !IsEndFrame(q[i], matchedOnly)
  {
    if n == 0 then |q| else if IsEndFrame(q[n - 1], matchedOnly) then n - 1 else LastEndFrame(q, n - 1, matchedOnly)
  }

  /** The EndFrame that survives: the last matched one, else the last one, else none (|q|). */
  function KeepIndex(q: seq<Task>): (k: nat)
    ensures k <= |q| && (k < |q| ==> q[k].EndFrame?)
  {
    var matched := LastEndFrame(q, |q|, true);
    if matched < |q| then matched else LastEndFrame(q, |q|, false)
  }

  /** A task among the commands before and after it. */
  function Among(before: seq<Command>, t: Task, after: seq<Command>): seq<Task> {
    AsTasks(before) + ([t] + AsTasks(after))
  }

  /** What compaction leaves: the commands, with the surviving EndFrame in its place among them. */
  function Compacted(q: seq<Task>): seq<Task> {
    var k := KeepIndex(q);
    if k == |q| then AsTasks(Commands(q)) else Among(Commands(q[..k]), q[k], Commands(q[k + 1..]))
  }

  function CompactionDrops(q: seq<Task>): Counts {
    var endFrames := Count(q, EndFrameKind);
    Counts(Count(q, PrewarmKind), 0, if endFrames == 0 then 0 else endFrames - 1)
  }

  datatype QueueState = QueueState(queue: seq<Task>, running: bool, overLimit: nat, maxDepth: nat,
                                   queued: Counts, processed: Counts, droppedCommands: nat, droppedEndFrames: nat)

  function EmptyQueue(): QueueState { QueueState([], false, 0, 0, Zero(), Zero(), 0, 0) }

  predicate Compacts(q: seq<Task>, t: Task) { !t.Prewarm? && |q| >= END_FRAME_COALESCE_DEPTH }

  function MadeRoom(q: seq<Task>, t: Task): seq<Task> { if Compacts(q, t) then Compacted(q) else q }

  function RoomDrops(q: seq<Task>, t: Task): Counts { if Compacts(q, t) then CompactionDrops(q) else Zero() }

  predicate Takes(q: seq<Task>, t: Task) { |MadeRoom(q, t)| < MAX_WORKER_TASKS }

  /** A task put at the end, or refused at the limit. */
  function Placed(s: QueueState, t: Task): QueueState {
    if |s.queue| >= MAX_WORKER_TASKS then s.(overLimit := s.overLimit + 1)
    else s.(queue := s.queue + [t], queued := s.queued.PlusOne(KindOf(t)),
            maxDepth := if s.maxDepth > |s.queue| + 1 then s.maxDepth else |s.queue| + 1)
  }

  /** The locked region of the three enqueuers. */
  function Enqueued(s: QueueState, t: Task): QueueState {
    Placed(s.(running := true, queue := MadeRoom(s.queue, t)), t)
  }

  /** The drops an enqueuer accounts for after it released the lock: none when it refused the task. */
  function EnqueueDrops(q: seq<Task>, t: Task): Counts { if Takes(q, t) then RoomDrops(q, t) else Zero() }

  function Accounted(s: QueueState, drops: Counts): QueueState {
    s.(droppedCommands := s.droppedCommands + drops.commands, droppedEndFrames := s.droppedEndFrames + drops.endFrames)
  }

  // ---- Counting ----

  lemma PushCounts(q: seq<Task>, t: Task, k: Kind)
    ensures Count(q + [t], k) == Count(q, k) + if KindOf(t) == k then 1 else 0
    ensures Commands(q + [t]) == Commands(q) + CommandIn(t)
  {
    assert (q + [t])[..|q|] == q;
  }

  lemma PrefixCounts(q: seq<Task>, i: nat, k: Kind)
    requires i < |q|
    ensures Count(q[..i + 1], k) == Count(q[..i], k) + if KindOf(q[i]) == k then 1 else 0
  {
    assert q[..i + 1] == q[..i] + [q[i]];
    PushCounts(q[..i], q[i], k);
  }

  lemma {:induction false} ConcatCounts(a: seq<Task>, b: seq<Task>, k: Kind)
    ensures Count(a + b, k) == Count(a, k) + Count(b, k)
    decreases |b|
  {
    if b == [] {
      assert a + b == a;
    } else {
      assert (a + b)[..|a + b| - 1] == a + b[..|b| - 1];
      ConcatCounts(a, b[..|b| - 1], k);
    }
  }

  lemma {:induction false} ConcatCommands(a: seq<Task>, b: seq<Task>)
    ensures Commands(a + b) == Commands(a) + Commands(b)
    decreases |b|
  {
    if b == [] {
      assert a + b == a;
    } else {
      assert (a + b)[..|a + b| - 1] == a + b[..|b| - 1];
      ConcatCommands(a, b[..|b| - 1]);
    }
  }

  lemma {:induction false} AsTasksBack(cs: seq<Command>, k: Kind)
    ensures Commands(AsTasks(cs)) == cs
    ensures Count(AsTasks(cs), k) == if k == CommandKind then |cs| else 0
  {
    if cs != [] {
      var front := cs[..|cs| - 1];
      AsTasksBack(front, k);
      assert AsTasks(cs)[..|cs| - 1] == AsTasks(front);
      assert cs == front + [cs[|cs| - 1]];
    }
  }

  lemma {:induction false} CommandsAreCounted(q: seq<Task>)
    ensures |Commands(q)| == Count(q, CommandKind)
    ensures |q| == Count(q, PrewarmKind) + Count(q, CommandKind) + Count(q, EndFrameKind)
  {
    if q != [] {
      CommandsAreCounted(q[..|q| - 1]);
    }
  }

  lemma {:induction false} NoEndFrames(q: seq<Task>)
    requires forall i | 0 <= i < |q| :: !q[i].EndFrame?
    ensures Count(q, EndFrameKind) == 0
  {
    if q != [] {
      NoEndFrames(q[..|q| - 1]);
    }
  }

  /** A queue taken apart at one of its tasks. */
  lemma Split(a: seq<Task>, t: Task, b: seq<Task>, k: Kind)
    ensures Count(a + ([t] + b), k) == Count(a, k) + Count(b, k) + if KindOf(t) == k then 1 else 0
    ensures Commands(a + ([t] + b)) == Commands(a) + CommandIn(t) + Commands(b)
  {
    assert a + ([t] + b) == (a + [t]) + b;
    ConcatCounts(a + [t], b, k);
    ConcatCommands(a + [t], b);
    PushCounts(a, t, k);
  }

  // ---- What compaction keeps ----

  lemma CompactionWithoutEndFrames(q: seq<Task>)
    requires KeepIndex(q) == |q|
    ensures Count(q, EndFrameKind) == 0
  {
    assert forall i | 0 <= i < |q| :: q[i].EndFrame? ==> IsEndFrame(q[i], false);
    NoEndFrames(q);
  }

  lemma AmongCounts(before: seq<Command>, t: Task, after: seq<Command>, k: Kind)
    requires t.EndFrame?
    ensures Commands(Among(before, t, after)) == before + after
    ensures Count(Among(before, t, after), k)
         == if k == CommandKind then |before| + |after| else if k == EndFrameKind then 1 else 0
  {
    AsTasksBack(before, k);
    AsTasksBack(after, k);
    Split(AsTasks(before), t, AsTasks(after), k);
  }

  lemma SplitAt(q: seq<Task>, i: nat, k: Kind)
    requires i < |q|
    ensures Count(q, k) == Count(q[..i], k) + Count(q[i + 1..], k) + if KindOf(q[i]) == k then 1 else 0
    ensures Commands(q) == Commands(q[..i]) + CommandIn(q[i]) + Commands(q[i + 1..])
  {
    assert q == q[..i] + ([q[i]] + q[i + 1..]);
    Split(q[..i], q[i], q[i + 1..], k);
  }

  lemma CountsAround(q: seq<Task>, i: nat, k: Kind)
    requires i < |q| && q[i].EndFrame?
    ensures Commands(Among(Commands(q[..i]), q[i], Commands(q[i + 1..]))) == Commands(q)
    ensures Count(Among(Commands(q[..i]), q[i], Commands(q[i + 1..])), k) == KeptCount(q, k)
  {
    SplitAt(q, i, k);
    AmongCounts(Commands(q[..i]), q[i], Commands(q[i + 1..]), k);
    LengthIsCount(q[..i]);
    LengthIsCount(q[i + 1..]);
  }

  lemma LengthIsCount(q: seq<Task>)
    ensures |Commands(q)| == Count(q, CommandKind)
  {
    CommandsAreCounted(q);
  }

  /** How many tasks of a kind compaction keeps. */
  function KeptCount(q: seq<Task>, k: Kind): nat {
    match k
    case PrewarmKind => 0
    case CommandKind => Count(q, k)
    case EndFrameKind => if Count(q, k) > 0 then 1 else 0
  }

  lemma OnlyCommandsCounts(q: seq<Task>, k: Kind)
    requires Count(q, EndFrameKind) == 0
    ensures Commands(AsTasks(Commands(q))) == Commands(q) && Count(AsTasks(Commands(q)), k) == KeptCount(q, k)
  {
    AsTasksBack(Commands(q), k);
    CommandsAreCounted(q);
  }

  lemma CompactedCountsOf(q: seq<Task>, i: nat, c: seq<Task>, k: Kind)
    requires i < |q| ==> q[i].EndFrame? && c == Among(Commands(q[..i]), q[i], Commands(q[i + 1..]))
    requires i >= |q| ==> Count(q, EndFrameKind) == 0 && c == AsTasks(Commands(q))
    ensures Commands(c) == Commands(q) && Count(c, k) == KeptCount(q, k)
  {
    if i < |q| {
      CountsAround(q, i, k);
    } else {
      OnlyCommandsCounts(q, k);
    }
  }

  lemma CompactedCounts(q: seq<Task>, k: Kind)
    ensures Commands(Compacted(q)) == Commands(q) && Count(Compacted(q), k) == KeptCount(q, k)
  {
    if KeepIndex(q) == |q| {
      CompactionWithoutEndFrames(q);
    }
    CompactedCountsOf(q, KeepIndex(q), Compacted(q), k);
  }

  /** Compaction keeps the command sequence, keeps at most one EndFrame and no Prewarm, and loses exactly what it
      reports; when the queue does not get shorter it loses nothing. */
  lemma CompactionKeepsTheCommands(q: seq<Task>, k: Kind)
    ensures Commands(Compacted(q)) == Commands(q)
    ensures Count(q, k) == Count(Compacted(q), k) + CompactionDrops(q).Of(k)
    ensures k != CommandKind ==> Count(Compacted(q), k) <= if k == EndFrameKind then 1 else 0
    ensures |Compacted(q)| <= |q|
    ensures |Compacted(q)| == |q| ==> CompactionDrops(q).Of(k) == 0
  {
    CompactedCounts(q, k);
    CompactedCounts(q, PrewarmKind);
    CompactedCounts(q, CommandKind);
    CompactedCounts(q, EndFrameKind);
    CommandsAreCounted(q);
    CommandsAreCounted(Compacted(q));
  }

  /** The survivor, characterised: the last matched EndFrame if there is one, else the last one; it stands behind
      exactly the commands it stood behind. */
  lemma SurvivorKeepsItsPlace(q: seq<Task>, i: nat)
    requires i < |q| && q[i].EndFrame?
    ensures var k := KeepIndex(q);
            && k < |q|
            && (i > k ==> q[k].matched && !q[i].matched)
            && (q[i].matched ==> q[k].matched)
            && |Commands(q[..k])| < |Compacted(q)|
            && Compacted(q)[|Commands(q[..k])|] == q[k]
            && Commands(Compacted(q)[..|Commands(q[..k])|]) == Commands(q[..k])
  {
    assert IsEndFrame(q[i], false);
    assert q[i].matched ==> IsEndFrame(q[i], true);
    var k := KeepIndex(q);
    AsTasksBack(Commands(q[..k]), CommandKind);
    assert Compacted(q)[..|Commands(q[..k])|] == AsTasks(Commands(q[..k]));
  }

  /** Where a command stands: the place in the queue of the j-th command. */
  lemma {:induction false} CommandStandsAt(q: seq<Task>, j: nat) returns (i: nat)
    requires j < |Commands(q)|
    ensures i < |q| && q[i] == SurfaceCommand(Commands(q)[j]) && Commands(q[..i]) == Commands(q)[..j]
  {
    var n := |q| - 1;
    var front := Commands(q[..n]);
    if j < |front| {
      i := CommandStandsAt(q[..n], j);
      assert q[..n][..i] == q[..i];
      assert Commands(q)[..j] == front[..j];
    } else {
      i := n;
      assert Commands(q)[..j] == front;
    }
  }

  lemma AmongAt(before: seq<Command>, t: Task, after: seq<Command>, i: nat)
    requires i < |before| + 1 + |after| && t.EndFrame?
    ensures |Among(before, t, after)| == |before| + 1 + |after|
    ensures var c := Among(before, t, after);
            if i < |before| then c[i] == SurfaceCommand(before[i]) && Commands(c[..i]) == before[..i]
            else if i == |before| then c[i] == t && Commands(c[..i]) == before
            else
              && c[i] == SurfaceCommand(after[i - |before| - 1])
              && Commands(c[..i]) == before + after[..i - |before| - 1]
  {
    var c := Among(before, t, after);
    if i <= |before| {
      assert c[..i] == AsTasks(before[..i]);
      AsTasksBack(before[..i], CommandKind);
      assert before[..|before|] == before;
    } else {
      var k := i - |before| - 1;
      assert c[..i] == Among(before, t, after[..k]);
      AmongCounts(before, t, after[..k], CommandKind);
    }
  }

  /** Every task of a compacted queue was in the queue before, behind exactly the same commands. */
  lemma CompactedStandsAt(q: seq<Task>, i: nat) returns (k: nat)
    requires i < |Compacted(q)|
    ensures k < |q| && q[k] == Compacted(q)[i] && Commands(q[..k]) == Commands(Compacted(q)[..i])
  {
    var keep := KeepIndex(q);
    if keep == |q| {
      k := CommandStandsAt(q, i);
      assert Compacted(q)[..i] == AsTasks(Commands(q)[..i]);
      AsTasksBack(Commands(q)[..i], CommandKind);
    } else {
      k := KeptStandsAt(q, keep, i);
    }
  }

  lemma StandsBefore(q: seq<Task>, keep: nat, i: nat) returns (k: nat)
    requires keep < |q| && i < |Commands(q[..keep])|
    ensures k < |q| && q[k] == SurfaceCommand(Commands(q[..keep])[i])
    ensures Commands(q[..k]) == Commands(q[..keep])[..i]
  {
    k := CommandStandsAt(q[..keep], i);
    assert q[..keep][..k] == q[..k];
  }

  lemma StandsBehind(q: seq<Task>, keep: nat, i: nat) returns (k: nat)
    requires keep < |q| && q[keep].EndFrame? && i < |Commands(q[keep + 1..])|
    ensures k < |q| && q[k] == SurfaceCommand(Commands(q[keep + 1..])[i])
    ensures Commands(q[..k]) == Commands(q[..keep]) + Commands(q[keep + 1..])[..i]
  {
    var j := CommandStandsAt(q[keep + 1..], i);
    k := keep + 1 + j;
    CommandsPast(q, keep, j);
  }

  lemma KeptStandsAt(q: seq<Task>, keep: nat, i: nat) returns (k: nat)
    requires keep < |q| && q[keep].EndFrame?
    requires i < |Among(Commands(q[..keep]), q[keep], Commands(q[keep + 1..]))|
    ensures var c := Among(Commands(q[..keep]), q[keep], Commands(q[keep + 1..]));
            k < |q| && q[k] == c[i] && Commands(q[..k]) == Commands(c[..i])
  {
    var n := |Commands(q[..keep])|;
    AmongAt(Commands(q[..keep]), q[keep], Commands(q[keep + 1..]), i);
    if i < n {
      k := StandsBefore(q, keep, i);
    } else if i == n {
      k := keep;
    } else {
      k := StandsBehind(q, keep, i - n - 1);
    }
  }

  lemma CommandsPast(q: seq<Task>, keep: nat, j: nat)
    requires keep + 1 + j <= |q| && q[keep].EndFrame?
    ensures Commands(q[..keep + 1 + j]) == Commands(q[..keep]) + Commands(q[keep + 1..][..j])
  {
    assert q[..keep + 1 + j] == q[..keep] + ([q[keep]] + q[keep + 1..][..j]);
    Split(q[..keep], q[keep], q[keep + 1..][..j], CommandKind);
  }

  // ---- What an enqueuer keeps ----

  predicate WithinBounds(q: seq<Task>) {
    |q| <= MAX_WORKER_TASKS && Count(q, EndFrameKind) <= END_FRAME_COALESCE_DEPTH
  }

  lemma RoomIsMade(q: seq<Task>, t: Task, k: Kind)
    requires WithinBounds(q)
    ensures |MadeRoom(q, t)| <= |q|
    ensures Count(q, k) == Count(MadeRoom(q, t), k) + RoomDrops(q, t).Of(k)
    ensures Commands(MadeRoom(q, t)) == Commands(q)
    ensures Count(MadeRoom(q, t), EndFrameKind) <= END_FRAME_COALESCE_DEPTH - if t.EndFrame? then 1 else 0
    ensures !Takes(q, t) ==> RoomDrops(q, t).Of(k) == 0
  {
    CommandsAreCounted(q);
    if Compacts(q, t) {
      CompactionKeepsTheCommands(q, k);
      CompactionKeepsTheCommands(q, EndFrameKind);
    }
  }

  /** Where an enqueuer leaves the queue: within its bounds, with the task at the end when it was taken, and with
      everything that disappeared reported. A refusal makes nothing disappear. */
  lemma EnqueueAccounts(s: QueueState, t: Task, k: Kind)
    requires WithinBounds(s.queue)
    ensures WithinBounds(Enqueued(s, t).queue)
    ensures Count(s.queue, k) + (if Takes(s.queue, t) && KindOf(t) == k then 1 else 0)
         == Count(Enqueued(s, t).queue, k) + EnqueueDrops(s.queue, t).Of(k)
    ensures Commands(Enqueued(s, t).queue) == Commands(s.queue) + if Takes(s.queue, t) then CommandIn(t) else []
  {
    RoomIsMade(s.queue, t, k);
    PushCounts(MadeRoom(s.queue, t), t, k);
    PushCounts(MadeRoom(s.queue, t), t, EndFrameKind);
  }

  /** A SurfaceCommand or an EndFrame that finds 24 tasks or more has the queue compacted first; a Prewarm never. */
  lemma CompactsFrom24(q: seq<Task>, t: Task)
    ensures MadeRoom(q, t) == if |q| >= 24 && !t.Prewarm? then Compacted(q) else q
  {
  }

  /** How long a queue is once compacted: its commands, and one EndFrame if it had any. */
  lemma CompactedLength(q: seq<Task>)
    ensures |Compacted(q)| == Count(q, CommandKind) + if Count(q, EndFrameKind) > 0 then 1 else 0
  {
    CompactedCounts(q, PrewarmKind);
    CompactedCounts(q, CommandKind);
    CompactedCounts(q, EndFrameKind);
    CommandsAreCounted(Compacted(q));
  }

  /** A task is refused exactly when 720 tasks are left after that. */
  lemma TakenExactlyWhen(q: seq<Task>, t: Task)
    ensures Takes(q, t) <==>
              if |q| >= 24 && !t.Prewarm?
              then Count(q, CommandKind) + (if Count(q, EndFrameKind) > 0 then 1 else 0) < 720 else |q| < 720
  {
    CompactedLength(q);
  }

  /** Where an enqueuer puts the task: behind everything else. A refused task leaves no trace but the count of
      refusals. */
  lemma TaskGoesLast(s: QueueState, t: Task)
    ensures var r, room := Enqueued(s, t), MadeRoom(s.queue, t);
            && r.running && r.processed == s.processed
            && r.droppedCommands == s.droppedCommands && r.droppedEndFrames == s.droppedEndFrames
            && (if Takes(s.queue, t) then
                  && |r.queue| == |room| + 1 && r.queue[|room|] == t && r.queue[..|room|] == room
                  && r.overLimit == s.overLimit
                else
                  && r.queue == room && r.overLimit == s.overLimit + 1
                  && r.queued == s.queued && r.maxDepth == s.maxDepth)
  {
  }

  lemma PopAccounts(q: seq<Task>, k: Kind)
    requires q != []
    ensures Count(q, k) == (if KindOf(q[0]) == k then 1 else 0) + Count(q[1..], k)
    ensures Commands(q) == CommandIn(q[0]) + Commands(q[1..])
  {
    assert q == q[..0] + ([q[0]] + q[1..]);
    Split(q[..0], q[0], q[1..], k);
  }

  // ---- The queue as the source keeps it ----

  class WorkerQueue {
    var queue: seq<Task>
    var running: bool
    var overLimit: nat
    var maxDepth: nat
    var queued: Counts
    var processed: Counts
    var droppedCommands: nat
    var droppedEndFrames: nat

    ghost function State(): QueueState
      reads this
    {
      QueueState(queue, running, overLimit, maxDepth, queued, processed, droppedCommands, droppedEndFrames)
    }

    constructor ()
      ensures State() == EmptyQueue()
    {
      queue, running, overLimit, maxDepth := [], false, 0, 0;
      queued, processed, droppedCommands, droppedEndFrames := Zero(), Zero(), 0, 0;
    }

    method Clear() returns (drops: Counts)
      modifies this`queue
      ensures drops == CountAll(old(queue)) && queue == []
    {
      var tasks := queue;
      var prewarms, commands, endFrames := 0, 0, 0;
      for i := 0 to |tasks|
        invariant prewarms == Count(tasks[..i], PrewarmKind)
        invariant commands == Count(tasks[..i], CommandKind)
        invariant endFrames == Count(tasks[..i], EndFrameKind)
      {
        PrefixCounts(tasks, i, PrewarmKind);
        PrefixCounts(tasks, i, CommandKind);
        PrefixCounts(tasks, i, EndFrameKind);
        match tasks[i] {
          case Prewarm(_, _) => prewarms := prewarms + 1;
          case SurfaceCommand(_) => commands := commands + 1;
          case EndFrame(_, _, _) => endFrames := endFrames + 1;
        }
      }
      assert tasks[..|tasks|] == tasks;
      drops := Counts(prewarms, commands, endFrames);
      queue := [];
    }

    /** The two backward searches. */
    method FindKeepIndex() returns (keep: nat)
      ensures keep == KeepIndex(queue)
    {
      keep := |queue|;
      var index: nat := |queue|;
      while index > 0
        invariant index <= |queue|
        invariant LastEndFrame(queue, |queue|, true) == LastEndFrame(queue, index, true)
      {
        var taskIndex := index - 1;
        if queue[taskIndex].EndFrame? && queue[taskIndex].matched {
          return taskIndex;
        }
        index := index - 1;
      }
      index := |queue|;
      while index > 0
        invariant index <= |queue|
        invariant LastEndFrame(queue, |queue|, false) == LastEndFrame(queue, index, false)
      {
        var taskIndex := index - 1;
        if queue[taskIndex].EndFrame? {
          return taskIndex;
        }
        index := index - 1;
      }
    }

    method Compact() returns (drops: Counts)
      modifies this`queue
      ensures queue == Compacted(old(queue)) && drops == CompactionDrops(old(queue))
    {
      var keep := FindKeepIndex();
      var tasks := queue;
      var compacted: seq<Task> := [];
      var prewarms, endFrames := 0, 0;
      for index := 0 to |tasks|
        invariant compacted == Survivors(tasks[..index], keep)
        invariant prewarms == Count(tasks[..index], PrewarmKind)
        invariant Count(tasks[..index], EndFrameKind) == endFrames + if keep < index then 1 else 0
      {
        var task := tasks[index];
        PrefixCounts(tasks, index, PrewarmKind);
        PrefixCounts(tasks, index, EndFrameKind);
        SurvivorsOfPrefix(tasks, index, keep);
        if task.Prewarm? {
          prewarms := prewarms + 1;
        } else if task.EndFrame? && index != keep {
          endFrames := endFrames + 1;
        } else {
          compacted := compacted + [task];
        }
      }
      assert tasks[..|tasks|] == tasks;
      SurvivorsAreCompacted(tasks);
      if keep == |tasks| {
        CompactionWithoutEndFrames(tasks);
      }
      drops := Counts(prewarms, 0, endFrames);
      queue := compacted;
    }

    method AccountDropped(drops: Counts)
      modifies this`droppedCommands, this`droppedEndFrames
      ensures State() == Accounted(old(State()), drops)
    {
      if drops.commands != 0 {
        droppedCommands := droppedCommands + drops.commands;
      }
      if drops.endFrames != 0 {
        droppedEndFrames := droppedEndFrames + drops.endFrames;
      }
    }

    method Place(task: Task) returns (ok: bool)
      modifies this`queue, this`overLimit, this`maxDepth, this`queued
      ensures State() == Placed(old(State()), task) && ok == (|old(queue)| < MAX_WORKER_TASKS)
    {
      if |queue| >= MAX_WORKER_TASKS {
        overLimit := overLimit + 1;
        return false;
      }
      queue := queue + [task];
      maxDepth := if maxDepth > |queue| then maxDepth else |queue|;
      queued := queued.PlusOne(KindOf(task));
      ok := true;
    }

    method EnqueuePrewarm(width: nat, height: nat) returns (ok: bool)
      modifies this
      ensures State() == Enqueued(old(State()), Prewarm(width, height))
      ensures ok == Takes(old(queue), Prewarm(width, height))
    {
      running := true;
      ok := Place(Prewarm(width, height));
    }

    method MakeRoom(task: Task) returns (drops: Counts)
      requires !task.Prewarm?
      modifies this`queue
      ensures queue == MadeRoom(old(queue), task) && drops == RoomDrops(old(queue), task)
    {
      drops := Zero();
      if |queue| >= END_FRAME_COALESCE_DEPTH {
        drops := Compact();
      }
    }

    /** SurfaceCommand and EndFrame share this region. The caller accounts for the drops when the task is taken. */
    method EnqueueCompacting(task: Task) returns (ok: bool, drops: Counts)
      requires !task.Prewarm?
      modifies this
      ensures State() == Enqueued(old(State()), task)
      ensures ok == Takes(old(queue), task) && drops == RoomDrops(old(queue), task)
    {
      running := true;
      drops := MakeRoom(task);
      ok := Place(task);
    }

    method Pop() returns (task: Task)
      requires queue != []
      modifies this`queue
      ensures task == old(queue)[0] && State() == old(State()).(queue := old(queue)[1..])
    {
      task := queue[0];
      queue := queue[1..];
    }

    method CountProcessed(task: Task)
      modifies this`processed
      ensures State() == old(State()).(processed := old(processed).PlusOne(KindOf(task)))
    {
      match task {
        case Prewarm(_, _) => processed := processed.(prewarms := processed.prewarms + 1);
        case SurfaceCommand(_) => processed := processed.(commands := processed.commands + 1);
        case EndFrame(_, _, _) => processed := processed.(endFrames := processed.endFrames + 1);
      }
    }
  }

  /** The tasks the compaction loop pushes, read off its prefix. */
  function Survivors(q: seq<Task>, keep: nat): seq<Task> {
    if q == [] then [] else Survivors(q[..|q| - 1], keep) + SurvivorAt(q[|q| - 1], |q| - 1, keep)
  }

  function SurvivorAt(t: Task, i: nat, keep: nat): seq<Task> {
    if t.SurfaceCommand? || (t.EndFrame? && i == keep) then [t] else []
  }

  lemma SurvivorsOfPrefix(q: seq<Task>, i: nat, keep: nat)
    requires i < |q|
    ensures Survivors(q[..i + 1], keep) == Survivors(q[..i], keep) + SurvivorAt(q[i], i, keep)
  {
    assert q[..i + 1][..i] == q[..i];
  }

  lemma {:induction false} SurvivorsBeforeKeep(q: seq<Task>, keep: nat)
    requires |q| <= keep
    ensures Survivors(q, keep) == AsTasks(Commands(q))
  {
    if q != [] {
      SurvivorsBeforeKeep(q[..|q| - 1], keep);
    }
  }

  /** The survivors of a queue taken apart at the kept EndFrame. */
  lemma {:induction false} SurvivorsAround(q: seq<Task>, k: nat)
    requires k < |q| && q[k].EndFrame?
    ensures Survivors(q, k) == Among(Commands(q[..k]), q[k], Commands(q[k + 1..]))
    decreases |q|
  {
    var n := |q| - 1;
    if k == n {
      SurvivorsBeforeKeep(q[..n], k);
      assert q[k + 1..] == [];
    } else {
      SurvivorsAround(q[..n], k);
      assert q[..n][..k] == q[..k];
      SuffixCommands(q, k);
      AmongStep(Commands(q[..k]), q[k], Commands(q[..n][k + 1..]), q[n]);
    }
  }

  lemma SuffixCommands(q: seq<Task>, k: nat)
    requires k < |q| - 1
    ensures Commands(q[k + 1..]) == Commands(q[..|q| - 1][k + 1..]) + CommandIn(q[|q| - 1])
  {
    var tail := q[k + 1..];
    assert tail[..|tail| - 1] == q[..|q| - 1][k + 1..];
  }

  lemma AmongStep(before: seq<Command>, t: Task, after: seq<Command>, last: Task)
    ensures Among(before, t, after + CommandIn(last)) ==
            Among(before, t, after) + if last.SurfaceCommand? then [last] else []
  {
  }

  lemma SurvivorsAreCompacted(q: seq<Task>)
    ensures Survivors(q, KeepIndex(q)) == Compacted(q)
  {
    if KeepIndex(q) == |q| {
      SurvivorsBeforeKeep(q, |q|);
    } else {
      SurvivorsAround(q, KeepIndex(q));
    }
  }
}
