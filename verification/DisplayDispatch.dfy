/** Who may send a resize, and with which size (napi/native_bridge_context.cpp). Toolbar calls, surface events, the
    debounce worker and the layout callback take the dispatch lock; session-state callbacks change the settings
    without it; the surface and the connection change at any time. One step is one atomic action of one thread. */
module DisplayDispatch {
  import opened DisplayResizeTypes
  import S = SessionDisplaySettings
  import C = RequestCoalescer

  datatype Size = Size(width: nat, height: nat)

  predicate NonEmpty(s: Size) { s.width != 0 && s.height != 0 }

  /** Where a thread is. All but `Away` and `Dequeued` hold the lock. A nested acquisition of the recursive lock is no
      step of its own. */
  datatype Pc =
    | Away
    // SetSessionDisplayResolution
    | ToolbarEntered(fixed: bool, asked: Size)
    | ToolbarChecked(fixed: bool, asked: Size)
    | ToolbarSized(fixed: bool, asked: Size, surface: Size)
    | ToolbarSelected(fixed: bool, asked: Size, surface: Size)
    // ScheduleCurrentSurfaceResize and FlushCurrentSurfaceResize
    | FollowEntered(flush: bool)
    | FollowUnfixed(flush: bool)
    | FollowSingle(flush: bool)
    | FollowSized(flush: bool)
    | FollowConnected(flush: bool)
    // The coalescer callback, from its worker or out of a flush
    | Dequeued
    | CallbackEntered
    | CallbackUnfixed
    | CallbackSingle
    | CallbackConnected
    // The layout callback
    | LayoutEntered(multimon: bool)
    | LayoutSet(multimon: bool)
    | LayoutSwapped(multimon: bool, wasMultimon: bool)
    // ApplyRemoteDesktopResizeLocked
    | Applying(size: Size, fromSurface: bool, asked: Size)
    | Begun(size: Size, fromSurface: bool, asked: Size, generation: nat)
    | Leaving

  /** A request handed to the protocol, with the settings and the layout at that moment. */
  datatype Send = Send(size: Size, fromSurface: bool, asked: Size, settings: S.State, multimonActive: bool)

  datatype Lock = Free | HeldBy(thread: nat)

  datatype World = World(lock: Lock, threads: map<nat, Pc>, settings: S.State, multimonActive: bool, coalescer: C.State,
                         surface: Size, connected: bool, sends: seq<Send>)

  function Start(): World {
    World(Free, map[], S.Initial(), false, C.Initial(), Size(0, 0), false, [])
  }

  function At(w: World, t: nat): Pc { if t in w.threads then w.threads[t] else Away }

  function Move(w: World, t: nat, pc: Pc): World { w.(threads := w.threads[t := pc]) }

  datatype Entry = Toolbar(fixed: bool, asked: Size) | Surface(flush: bool) | Worker | Layout(multimon: bool)

  datatype Step =
    | Enter(thread: nat, entry: Entry)
    | Dequeue(thread: nat)
    | Advance(thread: nat, now: nat, result: ResizeResult)
    | SessionReset
    | SessionConnected
    | SessionCancel
    | SurfaceChanges(size: Size)
    | ConnectionChanges(connected: bool)
    | FramePresented(generation: nat, size: Size)
    | SurfaceInvalidated

  predicate Enabled(w: World, step: Step) {
    match step
    case Enter(t, entry) => w.lock.Free? && At(w, t) == if entry.Worker? then Dequeued else Away
    case Dequeue(t) => At(w, t).Away? && w.coalescer.pending
    case Advance(t, _, _) => !At(w, t).Away? && !At(w, t).Dequeued?
    case _ => true
  }

  function EntryPc(entry: Entry): Pc {
    match entry
    case Toolbar(fixed, asked) => ToolbarEntered(fixed, asked)
    case Surface(flush) => FollowEntered(flush)
    case Worker => CallbackEntered
    case Layout(multimon) => LayoutEntered(multimon)
  }

  /** The next atomic action of a thread that holds the lock. */
  function Advanced(w: World, t: nat, now: nat, result: ResizeResult): World {
    match At(w, t)
    case ToolbarEntered(fixed, asked) =>
      Move(w, t, if w.connected && !w.multimonActive then ToolbarChecked(fixed, asked) else Leaving)
    case ToolbarChecked(fixed, asked) =>
      Move(w, t, if NonEmpty(w.surface) then ToolbarSized(fixed, asked, w.surface) else Leaving)
    case ToolbarSized(fixed, asked, surface) =>
      var ok := S.Selectable(w.settings, fixed, asked.width, asked.height);
      Move(w.(settings := S.Selected(w.settings, fixed, asked.width, asked.height)), t,
           if ok then ToolbarSelected(fixed, asked, surface) else Leaving)
    case ToolbarSelected(fixed, asked, surface) =>
      Move(w.(coalescer := C.Cancelled(w.coalescer)), t, Applying(if fixed then asked else surface, !fixed, asked))
    case FollowEntered(flush) => Move(w, t, if w.settings.fixed then Leaving else FollowUnfixed(flush))
    case FollowUnfixed(flush) => Move(w, t, if w.multimonActive then Leaving else FollowSingle(flush))
    case FollowSingle(flush) => Move(w, t, if NonEmpty(w.surface) then FollowSized(flush) else Leaving)
    case FollowSized(flush) => Move(w, t, if w.connected then FollowConnected(flush) else Leaving)
    case FollowConnected(flush) =>
      if flush then Move(w.(coalescer := C.Flushed(w.coalescer, 0)), t, CallbackEntered)
      else Move(w.(coalescer := C.Scheduled(w.coalescer, 0)), t, Leaving)
    case CallbackEntered => Move(w, t, if w.settings.fixed then Leaving else CallbackUnfixed)
    case CallbackUnfixed => Move(w, t, if w.multimonActive then Leaving else CallbackSingle)
    case CallbackSingle => Move(w, t, if w.connected then CallbackConnected else Leaving)
    case CallbackConnected =>
      Move(w, t, if NonEmpty(w.surface) then Applying(w.surface, true, w.surface) else Leaving)
    case LayoutEntered(multimon) => Move(w.(settings := S.WithMultimon(w.settings, multimon)), t, LayoutSet(multimon))
    case LayoutSet(multimon) => Move(w.(multimonActive := multimon), t, LayoutSwapped(multimon, w.multimonActive))
    case LayoutSwapped(multimon, wasMultimon) =>
      if multimon then Move(w.(coalescer := C.Cancelled(w.coalescer)), t, Leaving)
      else Move(w, t, if wasMultimon then Leaving else FollowEntered(false))
    case Applying(size, fromSurface, asked) =>
      var begun := S.Begun(w.settings, size.width, size.height, now);
      Move(w.(settings := begun), t, Begun(size, fromSurface, asked, begun.generation))
    case Begun(size, fromSurface, asked, generation) =>
      var send := Send(size, fromSurface, asked, w.settings, w.multimonActive);
      Move(w.(settings := S.WithResult(w.settings, generation, result), sends := w.sends + [send]), t, Leaving)
    case Leaving => Move(w.(lock := Free), t, Away)
    case _ => w
  }

  function Next(w: World, step: Step): World
    requires Enabled(w, step)
  {
    match step
    case Enter(t, entry) => Move(w.(lock := HeldBy(t)), t, EntryPc(entry))
    case Dequeue(t) => Move(w.(coalescer := w.coalescer.(pending := false)), t, Dequeued)
    case Advance(t, now, result) => Advanced(w, t, now, result)
    case SessionReset => w.(settings := S.WasReset(w.settings, false))
    case SessionConnected => w.(settings := w.settings.(connected := true))
    case SessionCancel => w.(coalescer := C.Cancelled(w.coalescer))
    case SurfaceChanges(size) => w.(surface := size)
    case ConnectionChanges(connected) => w.(connected := connected)
    case FramePresented(generation, size) =>
      w.(settings := S.WithPresented(w.settings, generation, size.width, size.height))
    case SurfaceInvalidated => w.(settings := S.Invalidated(w.settings))
  }

  // ---- The invariant ----

  predicate Outside(pc: Pc) { pc.Away? || pc.Dequeued? }

  /** Exactly the lock's holder is inside. */
  ghost predicate Exclusive(w: World) {
    && (forall t: nat | !Outside(At(w, t)) :: w.lock == HeldBy(t))
    && (w.lock.HeldBy? ==> !Outside(At(w, w.lock.thread)))
  }

  predicate FollowsSurface(w: World) { !w.settings.fixed && !w.multimonActive }

  predicate Pinned(w: World, asked: Size) {
    && 200 <= asked.width <= 4096 && 200 <= asked.height <= 4096
    && (w.settings.fixed ==> asked == Size(w.settings.requestedWidth, w.settings.requestedHeight))
  }

  predicate MaySend(w: World, size: Size, fromSurface: bool, asked: Size) {
    !w.multimonActive && if fromSurface then !w.settings.fixed else size == asked && Pinned(w, asked)
  }

  /** What the holder knows, stage by stage. */
  predicate Knows(w: World, pc: Pc) {
    match pc
    case ToolbarChecked(_, _) => !w.multimonActive
    case ToolbarSized(_, _, _) => !w.multimonActive
    case ToolbarSelected(fixed, asked, surface) =>
      MaySend(w, if fixed then asked else surface, !fixed, asked)
    case FollowUnfixed(_) => !w.settings.fixed
    case FollowSingle(_) => FollowsSurface(w)
    case FollowSized(_) => FollowsSurface(w)
    case FollowConnected(_) => FollowsSurface(w)
    case CallbackUnfixed => !w.settings.fixed
    case CallbackSingle => FollowsSurface(w)
    case CallbackConnected => FollowsSurface(w)
    case Applying(size, fromSurface, asked) => MaySend(w, size, fromSurface, asked)
    case Begun(size, fromSurface, asked, _) => MaySend(w, size, fromSurface, asked)
    case LayoutSet(multimon) => w.settings.multimon == multimon
    case _ => true
  }

  /** Outside the short stretch of the layout callback, the two records of the layout agree. */
  predicate LayoutAgrees(w: World) {
    (w.lock.HeldBy? && At(w, w.lock.thread).LayoutSet?) || w.settings.multimon == w.multimonActive
  }

  predicate GoodSend(send: Send) {
    && !send.multimonActive && !send.settings.multimon
    && (send.fromSurface ==> !send.settings.fixed)
    && (!send.fromSurface ==> send.size == send.asked)
    && (send.settings.fixed ==> send.size == Size(send.settings.requestedWidth, send.settings.requestedHeight))
  }

  ghost predicate Inv(w: World) {
    && Exclusive(w)
    && (w.lock.HeldBy? ==> Knows(w, At(w, w.lock.thread)))
    && LayoutAgrees(w)
    && forall i | 0 <= i < |w.sends| :: GoodSend(w.sends[i])
  }

  /** Changes of the settings that cannot break what the holder knows. */
  predicate Harmless(s: S.State, s': S.State) {
    && s'.multimon == s.multimon
    && (s'.fixed ==> s.fixed && s'.requestedWidth == s.requestedWidth && s'.requestedHeight == s.requestedHeight)
  }

  lemma HarmlessKeepsKnowledge(w: World, s': S.State, pc: Pc)
    requires Knows(w, pc) && Harmless(w.settings, s')
    ensures Knows(w.(settings := s'), pc)
  {
  }

  lemma ResultsAreHarmless(s: S.State, generation: nat, r: ResizeResult, width: nat, height: nat, now: nat)
    ensures Harmless(s, S.WithResult(s, generation, r))
    ensures Harmless(s, S.WithPresented(s, generation, width, height))
    ensures Harmless(s, S.Begun(s, width, height, now)) && Harmless(s, S.Invalidated(s))
    ensures Harmless(s, S.WasReset(s, false)) && Harmless(s, s.(connected := true))
  {
  }

  lemma MoveHolder(w: World, w': World, t: nat, pc: Pc)
    requires Exclusive(w) && w.lock == HeldBy(t) && !Outside(pc) && w'.lock == w.lock
    requires w'.threads == w.threads[t := pc]
    ensures Exclusive(w') && At(w', t) == pc
  {
    forall u: nat | !Outside(At(w', u)) ensures w'.lock == HeldBy(u) {
      if u != t { assert At(w', u) == At(w, u); }
    }
  }

  // A thread inside moves on: its knowledge grows by what it has just checked.

  lemma ToolbarKeepsKnowledge(w: World, t: nat, now: nat, result: ResizeResult)
    requires Inv(w) && w.lock == HeldBy(t)
    requires At(w, t).ToolbarEntered? || At(w, t).ToolbarChecked? || At(w, t).ToolbarSized? || At(w, t).ToolbarSelected?
    ensures Inv(Advanced(w, t, now, result))
  {
    MoveHolder(w, Advanced(w, t, now, result), t, At(Advanced(w, t, now, result), t));
  }

  lemma FollowKeepsKnowledge(w: World, t: nat, now: nat, result: ResizeResult)
    requires Inv(w) && w.lock == HeldBy(t)
    requires At(w, t).FollowEntered? || At(w, t).FollowUnfixed? || At(w, t).FollowSingle? || At(w, t).FollowSized?
          || At(w, t).FollowConnected?
    ensures Inv(Advanced(w, t, now, result))
  {
    MoveHolder(w, Advanced(w, t, now, result), t, At(Advanced(w, t, now, result), t));
  }

  lemma CallbackKeepsKnowledge(w: World, t: nat, now: nat, result: ResizeResult)
    requires Inv(w) && w.lock == HeldBy(t)
    requires At(w, t).CallbackEntered? || At(w, t).CallbackUnfixed? || At(w, t).CallbackSingle?
          || At(w, t).CallbackConnected?
    ensures Inv(Advanced(w, t, now, result))
  {
    MoveHolder(w, Advanced(w, t, now, result), t, At(Advanced(w, t, now, result), t));
  }

  lemma LayoutKeepsKnowledge(w: World, t: nat, now: nat, result: ResizeResult)
    requires Inv(w) && w.lock == HeldBy(t)
    requires At(w, t).LayoutEntered? || At(w, t).LayoutSet? || At(w, t).LayoutSwapped?
    ensures Inv(Advanced(w, t, now, result))
  {
    MoveHolder(w, Advanced(w, t, now, result), t, At(Advanced(w, t, now, result), t));
  }

  lemma ApplyKeepsKnowledge(w: World, t: nat, now: nat, result: ResizeResult)
    requires Inv(w) && w.lock == HeldBy(t) && At(w, t).Applying?
    ensures Inv(Advanced(w, t, now, result))
  {
    var pc, w' := At(w, t), Advanced(w, t, now, result);
    ResultsAreHarmless(w.settings, 0, result, pc.size.width, pc.size.height, now);
    HarmlessKeepsKnowledge(w, w'.settings, pc);
    MoveHolder(w, w', t, At(w', t));
  }

  lemma SendIsGood(w: World, t: nat, now: nat, result: ResizeResult)
    requires Inv(w) && w.lock == HeldBy(t) && At(w, t).Begun?
    ensures Inv(Advanced(w, t, now, result))
  {
    var pc, w' := At(w, t), Advanced(w, t, now, result);
    ResultsAreHarmless(w.settings, pc.generation, result, 0, 0, now);
    MoveHolder(w, w', t, Leaving);
    assert GoodSend(w'.sends[|w.sends|]);
  }

  lemma LeaveKeepsInv(w: World, t: nat, now: nat, result: ResizeResult)
    requires Inv(w) && w.lock == HeldBy(t) && At(w, t).Leaving?
    ensures Inv(Advanced(w, t, now, result))
  {
    var w' := Advanced(w, t, now, result);
    forall u: nat ensures Outside(At(w', u)) {
      if u != t { assert At(w', u) == At(w, u); }
    }
  }

  lemma EnterKeepsInv(w: World, t: nat, entry: Entry)
    requires Inv(w) && Enabled(w, Enter(t, entry))
    ensures Inv(Next(w, Enter(t, entry)))
  {
    var w' := Next(w, Enter(t, entry));
    forall u: nat ensures u == t || Outside(At(w', u)) {
      if u != t { assert At(w', u) == At(w, u); }
    }
  }

  lemma DequeueKeepsInv(w: World, t: nat)
    requires Inv(w) && Enabled(w, Dequeue(t))
    ensures Inv(Next(w, Dequeue(t)))
  {
    var w' := Next(w, Dequeue(t));
    forall u: nat | !Outside(At(w', u)) ensures w'.lock == HeldBy(u) {
      assert At(w', u) == At(w, u);
    }
  }

  /** Changing the settings in a way that cannot break what the holder knows. */
  lemma SettingsKeepInv(w: World, s': S.State)
    requires Inv(w) && Harmless(w.settings, s')
    ensures Inv(w.(settings := s'))
  {
    var w' := w.(settings := s');
    assert forall u: nat :: At(w', u) == At(w, u);
    if w.lock.HeldBy? {
      HarmlessKeepsKnowledge(w, s', At(w, w.lock.thread));
    }
  }

  lemma ElsewhereKeepsInv(w: World, w': World)
    requires Inv(w) && w'.lock == w.lock && w'.threads == w.threads && w'.settings == w.settings
    requires w'.multimonActive == w.multimonActive && w'.sends == w.sends
    ensures Inv(w')
  {
    assert forall u: nat :: At(w', u) == At(w, u);
    if w.lock.HeldBy? {
      assert Knows(w', At(w, w.lock.thread));
    }
  }

  lemma OutsideStepsKeepInv(w: World, step: Step)
    requires Inv(w) && Enabled(w, step) && !step.Enter? && !step.Advance?
    ensures Inv(Next(w, step))
  {
    var none := ResizeResult(Sent, 0, 0, 0, 0);
    ResultsAreHarmless(w.settings, 0, none, 0, 0, 0);
    if step.Dequeue? {
      DequeueKeepsInv(w, step.thread);
    } else if step.FramePresented? {
      ResultsAreHarmless(w.settings, step.generation, none, step.size.width, step.size.height, 0);
      SettingsKeepInv(w, S.WithPresented(w.settings, step.generation, step.size.width, step.size.height));
    } else if step.SessionReset? {
      SettingsKeepInv(w, S.WasReset(w.settings, false));
    } else if step.SessionConnected? {
      SettingsKeepInv(w, w.settings.(connected := true));
    } else if step.SurfaceInvalidated? {
      SettingsKeepInv(w, S.Invalidated(w.settings));
    } else {
      ElsewhereKeepsInv(w, Next(w, step));
    }
  }

  lemma StepKeepsInv(w: World, step: Step)
    requires Inv(w) && Enabled(w, step)
    ensures Inv(Next(w, step))
  {
    if step.Enter? {
      EnterKeepsInv(w, step.thread, step.entry);
    } else if step.Advance? {
      var t, now, result := step.thread, step.now, step.result;
      if At(w, t).Leaving? {
        LeaveKeepsInv(w, t, now, result);
      } else if At(w, t).Begun? {
        SendIsGood(w, t, now, result);
      } else if At(w, t).Applying? {
        ApplyKeepsKnowledge(w, t, now, result);
      } else if At(w, t).LayoutEntered? || At(w, t).LayoutSet? || At(w, t).LayoutSwapped? {
        LayoutKeepsKnowledge(w, t, now, result);
      } else if At(w, t).FollowEntered? || At(w, t).FollowUnfixed? || At(w, t).FollowSingle? || At(w, t).FollowSized?
                || At(w, t).FollowConnected? {
        FollowKeepsKnowledge(w, t, now, result);
      } else if At(w, t).CallbackEntered? || At(w, t).CallbackUnfixed? || At(w, t).CallbackSingle?
                || At(w, t).CallbackConnected? {
        CallbackKeepsKnowledge(w, t, now, result);
      } else {
        ToolbarKeepsKnowledge(w, t, now, result);
      }
    } else {
      OutsideStepsKeepInv(w, step);
    }
  }

  datatype Run = Run(steps: seq<Step>, worlds: seq<World>)

  predicate IsStep(r: Run, i: nat)
    requires i < |r.steps| && |r.worlds| == |r.steps| + 1
  {
    Enabled(r.worlds[i], r.steps[i]) && r.worlds[i + 1] == Next(r.worlds[i], r.steps[i])
  }

  predicate IsRun(r: Run) {
    && |r.worlds| == |r.steps| + 1
    && r.worlds[0] == Start()
    && forall i | 0 <= i < |r.steps| :: IsStep(r, i)
  }

  lemma {:induction false} RunKeepsInv(r: Run, n: nat)
    requires IsRun(r) && n <= |r.steps|
    ensures Inv(r.worlds[n])
  {
    if n > 0 {
      RunKeepsInv(r, n - 1);
      assert IsStep(r, n - 1);
      StepKeepsInv(r.worlds[n - 1], r.steps[n - 1]);
    }
  }

  /** In every interleaving: no resize is sent in multi-monitor mode; one whose size comes from the surface is sent
      only while the mode is follow, even when its request was dequeued before the mode changed; one sent while the
      mode is fixed carries exactly the pinned size; and a toolbar request for a fixed size carries that size. */
  lemma SendsRespectTheMode(r: Run, n: nat, i: nat)
    requires IsRun(r) && n <= |r.steps| && i < |r.worlds[n].sends|
    ensures var send := r.worlds[n].sends[i];
            && !send.multimonActive && !send.settings.multimon
            && (send.fromSurface ==> !send.settings.fixed)
            && (!send.fromSurface ==> send.size == send.asked)
            && (send.settings.fixed ==> send.size == Size(send.settings.requestedWidth, send.settings.requestedHeight))
  {
    RunKeepsInv(r, n);
    assert GoodSend(r.worlds[n].sends[i]);
  }

  /** A toolbar request for a fixed size can be sent after a session callback, which takes no lock, has put the
      mode back to follow: from any state in which a toolbar call has selected the size, two steps later. */
  lemma FixedSendCanFollowAReset(w: World, t: nat, now: nat, result: ResizeResult)
    requires w.lock == HeldBy(t) && At(w, t).Applying? && !At(w, t).fromSurface
    ensures var reset := Next(w, SessionReset);
            var begun := Advanced(reset, t, now, result);
            var sent := Advanced(begun, t, now, result);
            && Enabled(reset, Advance(t, now, result)) && Enabled(begun, Advance(t, now, result))
            && |sent.sends| == |w.sends| + 1
            && !sent.sends[|w.sends|].fromSurface && !sent.sends[|w.sends|].settings.fixed
  {
    var reset := Next(w, SessionReset);
    assert At(reset, t) == At(w, t);
    var begun := Advanced(reset, t, now, result);
    assert At(begun, t).Begun?;
  }

  // ---- Exactly when a fixed size is sent in follow mode ----

  /** A toolbar call that has selected the fixed size `asked` and has not sent it yet. */
  predicate OnItsWay(pc: Pc, asked: Size) {
    || (pc.ToolbarSelected? && pc.fixed && pc.asked == asked)
    || (pc.Applying? && !pc.fromSurface && pc.asked == asked)
    || (pc.Begun? && !pc.fromSurface && pc.asked == asked)
  }

  /** The step at m is the one with which the call of t selected the fixed size `asked`. */
  predicate Selects(r: Run, m: nat, t: nat, asked: Size)
    requires IsRun(r) && m < |r.steps|
  {
    && r.steps[m].Advance? && r.steps[m].thread == t
    && At(r.worlds[m], t).ToolbarSized? && At(r.worlds[m], t).fixed && At(r.worlds[m], t).asked == asked
    && OnItsWay(At(r.worlds[m + 1], t), asked)
  }

  predicate NoResetBetween(r: Run, m: nat, n: nat)
    requires IsRun(r) && m <= n <= |r.steps|
  {
    forall k | m < k < n :: !r.steps[k].SessionReset?
  }

  lemma OnlyAResetUnfixes(w: World, step: Step, t: nat, asked: Size)
    requires Inv(w) && Enabled(w, step) && OnItsWay(At(w, t), asked) && OnItsWay(At(Next(w, step), t), asked)
    ensures Next(w, step).settings.fixed == (w.settings.fixed && !step.SessionReset?)
  {
    assert w.lock == HeldBy(t);
  }

  lemma OthersStay(w: World, t: nat, u: nat, now: nat, result: ResizeResult)
    requires u != t
    ensures At(Advanced(w, t, now, result), u) == At(w, u)
  {
    var pc := At(w, t);
    if pc.ToolbarEntered? || pc.ToolbarChecked? || pc.ToolbarSized? || pc.ToolbarSelected? {
    } else if pc.FollowEntered? || pc.FollowUnfixed? || pc.FollowSingle? || pc.FollowSized? || pc.FollowConnected? {
    } else if pc.CallbackEntered? || pc.CallbackUnfixed? || pc.CallbackSingle? || pc.CallbackConnected? {
    } else if pc.LayoutEntered? || pc.LayoutSet? || pc.LayoutSwapped? {
    } else {
    }
  }

  lemma SelectingStarts(w: World, t: nat, now: nat, result: ResizeResult, asked: Size)
    requires !OnItsWay(At(w, t), asked) && OnItsWay(At(Advanced(w, t, now, result), t), asked)
    ensures At(w, t).ToolbarSized? && At(w, t).fixed && At(w, t).asked == asked
    ensures Advanced(w, t, now, result).settings.fixed
  {
    var pc := At(w, t);
    if pc.ToolbarEntered? || pc.ToolbarChecked? || pc.ToolbarSized? || pc.ToolbarSelected? {
    } else if pc.FollowEntered? || pc.FollowUnfixed? || pc.FollowSingle? || pc.FollowSized? || pc.FollowConnected? {
    } else if pc.CallbackEntered? || pc.CallbackUnfixed? || pc.CallbackSingle? || pc.CallbackConnected? {
    } else {
    }
  }

  lemma OnlySelectingStarts(w: World, step: Step, t: nat, asked: Size)
    requires Inv(w) && Enabled(w, step) && !OnItsWay(At(w, t), asked) && OnItsWay(At(Next(w, step), t), asked)
    ensures step.Advance? && step.thread == t && At(w, t).ToolbarSized? && At(w, t).fixed && At(w, t).asked == asked
    ensures Next(w, step).settings.fixed
  {
    if step.Advance? {
      if step.thread == t {
        SelectingStarts(w, t, step.now, step.result, asked);
      } else {
        OthersStay(w, step.thread, t, step.now, step.result);
      }
    }
  }

  lemma {:induction false} FixedUnlessReset(r: Run, n: nat, t: nat, asked: Size) returns (m: nat)
    requires IsRun(r) && n <= |r.steps| && OnItsWay(At(r.worlds[n], t), asked)
    ensures m < n && Selects(r, m, t, asked)
    ensures forall k | m < k <= n :: OnItsWay(At(r.worlds[k], t), asked)
    ensures r.worlds[n].settings.fixed <==> NoResetBetween(r, m, n)
    decreases n
  {
    m := n - 1;
    assert IsStep(r, m);
    RunKeepsInv(r, m);
    if OnItsWay(At(r.worlds[m], t), asked) {
      OnlyAResetUnfixes(r.worlds[m], r.steps[m], t, asked);
      m := FixedUnlessReset(r, m, t, asked);
    } else {
      OnlySelectingStarts(r.worlds[m], r.steps[m], t, asked);
    }
  }

  /** Every toolbar send of a fixed size, in every interleaving: the mode at the moment of the send is still fixed
      if and only if no session callback has reset the settings since this call selected the size (at m). */
  lemma FixedSendIsPinnedExactlyWithoutAReset(r: Run, n: nat) returns (m: nat)
    requires IsRun(r) && n < |r.steps| && r.steps[n].Advance?
    requires At(r.worlds[n], r.steps[n].thread).Begun? && !At(r.worlds[n], r.steps[n].thread).fromSurface
    ensures m < n && Selects(r, m, r.steps[n].thread, At(r.worlds[n], r.steps[n].thread).asked)
    ensures var before, after := r.worlds[n].sends, r.worlds[n + 1].sends;
            && |after| == |before| + 1 && after[..|before|] == before && !after[|before|].fromSurface
            && (after[|before|].settings.fixed <==> NoResetBetween(r, m, n))
  {
    var t := r.steps[n].thread;
    assert IsStep(r, n);
    m := FixedUnlessReset(r, n, t, At(r.worlds[n], t).asked);
  }

  function Last(r: Run): World
    requires IsRun(r)
  {
    r.worlds[|r.steps|]
  }

  lemma Extend(r: Run, step: Step) returns (r': Run)
    requires IsRun(r) && Enabled(Last(r), step)
    ensures IsRun(r') && Last(r') == Next(Last(r), step)
  {
    r' := Run(r.steps + [step], r.worlds + [Next(Last(r), step)]);
    forall i | 0 <= i < |r'.steps| ensures IsStep(r', i) {
      if i < |r.steps| { assert IsStep(r, i); }
    }
  }

  /** A connected single-monitor session with a surface, and nobody inside. */
  predicate ReadyForToolbar(w: World, size: Size) {
    && w.lock.Free? && At(w, 0).Away? && w.connected && !w.multimonActive && w.surface == size
    && w.settings.connected && !w.settings.multimon
  }

  lemma ReachesReady(size: Size) returns (r: Run)
    ensures IsRun(r) && ReadyForToolbar(Last(r), size)
  {
    r := Run([], [Start()]);
    r := Extend(r, ConnectionChanges(true));
    r := Extend(r, SurfaceChanges(size));
    r := Extend(r, SessionConnected);
  }

  lemma ToolbarSelects(r: Run, size: Size, go: Step) returns (r': Run)
    requires IsRun(r) && ReadyForToolbar(Last(r), size) && NonEmpty(size) && go.Advance? && go.thread == 0
    requires S.Selectable(Last(r).settings, true, size.width, size.height)
    ensures IsRun(r') && Last(r').lock == HeldBy(0) && At(Last(r'), 0) == ToolbarSelected(true, size, size)
    ensures Last(r').settings.fixed
  {
    r' := Extend(r, Enter(0, Toolbar(true, size)));
    assert At(Last(r'), 0) == ToolbarEntered(true, size);
    r' := Extend(r', go);
    assert At(Last(r'), 0) == ToolbarChecked(true, size);
    r' := Extend(r', go);
    assert At(Last(r'), 0) == ToolbarSized(true, size, size);
    r' := Extend(r', go);
  }

  /** Such a state is reachable. */
  lemma ToolbarReachesItsSend(go: Step) returns (r: Run)
    requires go.Advance? && go.thread == 0
    ensures IsRun(r) && Last(r).lock == HeldBy(0)
    ensures At(Last(r), 0) == Applying(Size(800, 600), false, Size(800, 600)) && Last(r).settings.fixed
  {
    r := ReachesReady(Size(800, 600));
    r := ToolbarSelects(r, Size(800, 600), go);
    r := Extend(r, go);
  }

  // ---- Which surface a size was read from ----

  /** A thread that has read `size` off the surface and has not sent it yet. */
  predicate CarriesSurface(pc: Pc, size: Size) {
    || (pc.ToolbarSized? && pc.surface == size) || (pc.ToolbarSelected? && pc.surface == size)
    || (pc.Applying? && pc.fromSurface && pc.size == size) || (pc.Begun? && pc.fromSurface && pc.size == size)
  }

  lemma OnlyReadingStarts(w: World, step: Step, t: nat, size: Size)
    requires Enabled(w, step) && CarriesSurface(At(Next(w, step), t), size)
    ensures CarriesSurface(At(w, t), size) || (step.Advance? && step.thread == t && size == w.surface)
    ensures !CarriesSurface(At(w, t), size) ==> size.width > 0 && size.height > 0
  {
    if step.Advance? && step.thread == t {
      ReadingStarts(w, t, step.now, step.result, size);
    } else if step.Advance? {
      OthersStay(w, step.thread, t, step.now, step.result);
    }
  }

  lemma ReadingStarts(w: World, t: nat, now: nat, result: ResizeResult, size: Size)
    requires CarriesSurface(At(Advanced(w, t, now, result), t), size)
    ensures CarriesSurface(At(w, t), size) || (size == w.surface && size.width > 0 && size.height > 0)
  {
    var pc := At(w, t);
    if pc.ToolbarEntered? || pc.ToolbarChecked? || pc.ToolbarSized? || pc.ToolbarSelected? {
    } else if pc.FollowEntered? || pc.FollowUnfixed? || pc.FollowSingle? || pc.FollowSized? || pc.FollowConnected? {
    } else if pc.CallbackEntered? || pc.CallbackUnfixed? || pc.CallbackSingle? || pc.CallbackConnected? {
    } else {
    }
  }

  lemma {:induction false} SurfaceWasRead(r: Run, n: nat, t: nat, size: Size) returns (m: nat)
    requires IsRun(r) && n <= |r.steps| && CarriesSurface(At(r.worlds[n], t), size)
    ensures m < n && r.steps[m].Advance? && r.steps[m].thread == t && size == r.worlds[m].surface
    ensures size.width > 0 && size.height > 0
    ensures forall k | m < k <= n :: CarriesSurface(At(r.worlds[k], t), size)
    decreases n
  {
    m := n - 1;
    assert IsStep(r, m);
    OnlyReadingStarts(r.worlds[m], r.steps[m], t, size);
    if CarriesSurface(At(r.worlds[m], t), size) {
      m := SurfaceWasRead(r, m, t, size);
    }
  }

  /** Every send whose size comes from the surface carries the size, not empty, that the surface had at a step (m)
      at which the same call read it, and the call has held the lock since. */
  lemma SurfaceSendsCarryTheSurface(r: Run, n: nat) returns (m: nat)
    requires IsRun(r) && n < |r.steps| && r.steps[n].Advance?
    requires At(r.worlds[n], r.steps[n].thread).Begun? && At(r.worlds[n], r.steps[n].thread).fromSurface
    ensures m < n && r.steps[m].Advance? && r.steps[m].thread == r.steps[n].thread
    ensures r.worlds[n + 1].sends ==
              r.worlds[n].sends + [Send(r.worlds[m].surface, true, At(r.worlds[n], r.steps[n].thread).asked,
                                        r.worlds[n].settings, r.worlds[n].multimonActive)]
    ensures r.worlds[m].surface.width > 0 && r.worlds[m].surface.height > 0
    ensures forall k | m < k <= n :: r.worlds[k].lock == HeldBy(r.steps[n].thread)
  {
    var t := r.steps[n].thread;
    var size := At(r.worlds[n], t).size;
    assert IsStep(r, n);
    m := SurfaceWasRead(r, n, t, size);
    forall k | m < k <= n ensures r.worlds[k].lock == HeldBy(t) {
      RunKeepsInv(r, k);
      assert CarriesSurface(At(r.worlds[k], t), size);
    }
  }

  /** Nothing else is ever added to the sends, and nothing is taken away. */
  lemma OnlyBegunSends(w: World, step: Step)
    requires Enabled(w, step)
    ensures if step.Advance? && At(w, step.thread).Begun? then |Next(w, step).sends| == |w.sends| + 1
            else Next(w, step).sends == w.sends
  {
  }

  lemma CallsLeaveTheOutside(w: World, t: nat, now: nat, result: ResizeResult)
    ensures Advanced(w, t, now, result).surface == w.surface && Advanced(w, t, now, result).connected == w.connected
  {
    var pc := At(w, t);
    if pc.ToolbarEntered? || pc.ToolbarChecked? || pc.ToolbarSized? || pc.ToolbarSelected? {
    } else if pc.FollowEntered? || pc.FollowUnfixed? || pc.FollowSingle? || pc.FollowSized? || pc.FollowConnected? {
    } else if pc.CallbackEntered? || pc.CallbackUnfixed? || pc.CallbackSingle? || pc.CallbackConnected? {
    } else {
    }
  }

  /** The surface and the connection are what the last change of each said. */
  lemma {:induction false} OutsideIsTheLastSaid(r: Run, b: nat, n: nat)
    requires IsRun(r) && b < n <= |r.steps|
    ensures r.steps[b].SurfaceChanges? && (forall k | b < k < n :: !r.steps[k].SurfaceChanges?) ==>
              r.worlds[n].surface == r.steps[b].size
    ensures r.steps[b].ConnectionChanges? && (forall k | b < k < n :: !r.steps[k].ConnectionChanges?) ==>
              r.worlds[n].connected == r.steps[b].connected
    decreases n
  {
    var k := n - 1;
    assert IsStep(r, k);
    if r.steps[k].Advance? {
      CallsLeaveTheOutside(r.worlds[k], r.steps[k].thread, r.steps[k].now, r.steps[k].result);
    }
    if b < k {
      OutsideIsTheLastSaid(r, b, k);
    }
  }

  // ---- What a call does when nobody else acts ----

  /** How many actions the call has left at most. */
  function Remaining(pc: Pc): nat {
    match pc
    case LayoutEntered(_) => 15 case LayoutSet(_) => 14 case LayoutSwapped(_, _) => 13
    case FollowEntered(_) => 12 case FollowUnfixed(_) => 11 case FollowSingle(_) => 10
    case FollowSized(_) => 9 case FollowConnected(_) => 8
    case CallbackEntered => 7 case CallbackUnfixed => 6 case CallbackSingle => 5 case CallbackConnected => 4
    case ToolbarEntered(_, _) => 7 case ToolbarChecked(_, _) => 6 case ToolbarSized(_, _, _) => 5
    case ToolbarSelected(_, _, _) => 4
    case Applying(_, _, _) => 3 case Begun(_, _, _, _) => 2 case Leaving => 1
    case Away => 0 case Dequeued => 0
  }

  lemma ToolbarShortens(w: World, t: nat, now: nat, result: ResizeResult)
    requires At(w, t).ToolbarEntered? || At(w, t).ToolbarChecked? || At(w, t).ToolbarSized? || At(w, t).ToolbarSelected?
    ensures Remaining(At(Advanced(w, t, now, result), t)) < Remaining(At(w, t))
  {
  }

  lemma FollowShortens(w: World, t: nat, now: nat, result: ResizeResult)
    requires At(w, t).FollowEntered? || At(w, t).FollowUnfixed? || At(w, t).FollowSingle? || At(w, t).FollowSized?
          || At(w, t).FollowConnected?
    ensures Remaining(At(Advanced(w, t, now, result), t)) < Remaining(At(w, t))
  {
  }

  lemma CallbackShortens(w: World, t: nat, now: nat, result: ResizeResult)
    requires At(w, t).CallbackEntered? || At(w, t).CallbackUnfixed? || At(w, t).CallbackSingle?
          || At(w, t).CallbackConnected?
    ensures Remaining(At(Advanced(w, t, now, result), t)) < Remaining(At(w, t))
  {
  }

  lemma LayoutShortens(w: World, t: nat, now: nat, result: ResizeResult)
    requires At(w, t).LayoutEntered? || At(w, t).LayoutSet? || At(w, t).LayoutSwapped?
    ensures Remaining(At(Advanced(w, t, now, result), t)) < Remaining(At(w, t))
  {
  }

  /** Every action brings a call nearer its end: none holds the lock for ever. */
  lemma AdvancingShortens(w: World, t: nat, now: nat, result: ResizeResult)
    requires !Outside(At(w, t))
    ensures Remaining(At(Advanced(w, t, now, result), t)) < Remaining(At(w, t))
  {
    var pc := At(w, t);
    if pc.ToolbarEntered? || pc.ToolbarChecked? || pc.ToolbarSized? || pc.ToolbarSelected? {
      ToolbarShortens(w, t, now, result);
    } else if pc.FollowEntered? || pc.FollowUnfixed? || pc.FollowSingle? || pc.FollowSized? || pc.FollowConnected? {
      FollowShortens(w, t, now, result);
    } else if pc.CallbackEntered? || pc.CallbackUnfixed? || pc.CallbackSingle? || pc.CallbackConnected? {
      CallbackShortens(w, t, now, result);
    } else if pc.LayoutEntered? || pc.LayoutSet? || pc.LayoutSwapped? {
      LayoutShortens(w, t, now, result);
    }
  }

  /** The world once the call of t, taking all its actions at `now`, has left. */
  function Finished(w: World, t: nat, now: nat, result: ResizeResult): World
    decreases Remaining(At(w, t))
  {
    if Outside(At(w, t)) then w
    else
      AdvancingShortens(w, t, now, result);
      Finished(Advanced(w, t, now, result), t, now, result)
  }

  /** The call has left; of the rest of the world only what is named here has changed. */
  predicate LeftWith(w: World, w': World, t: nat, settings: S.State, coalescer: C.State, multimonActive: bool,
                     sends: seq<Send>)
  {
    && w'.lock == Free && At(w', t) == Away && w'.surface == w.surface && w'.connected == w.connected
    && w'.settings == settings && w'.coalescer == coalescer && w'.multimonActive == multimonActive
    && w'.sends == sends
  }

  predicate LeftAlone(w: World, w': World, t: nat) {
    LeftWith(w, w', t, w.settings, w.coalescer, w.multimonActive, w.sends)
  }

  /** The size is sent, and the settings go through a begin and its result. */
  predicate LeftSending(w: World, w': World, t: nat, settings: S.State, coalescer: C.State, send: Send, now: nat,
                        result: ResizeResult)
  {
    var begun := S.Begun(settings, send.size.width, send.size.height, now);
    && send.settings == begun
    && LeftWith(w, w', t, S.WithResult(begun, settings.generation + 1, result), coalescer, w.multimonActive,
                w.sends + [send])
  }

  lemma LeavesNow(w: World, t: nat, now: nat, result: ResizeResult)
    requires At(w, t).Leaving?
    ensures LeftAlone(w, Finished(w, t, now, result), t)
  {
    assert At(Advanced(w, t, now, result), t).Away?;
  }

  lemma AppliesAlone(w: World, t: nat, now: nat, result: ResizeResult, pc: Pc)
    requires At(w, t) == pc && pc.Applying?
    ensures LeftSending(w, Finished(w, t, now, result), t, w.settings, w.coalescer,
                        Send(pc.size, pc.fromSurface, pc.asked,
                             S.Begun(w.settings, pc.size.width, pc.size.height, now), w.multimonActive), now, result)
  {
    var begun := Advanced(w, t, now, result);
    assert At(begun, t).Begun?;
    var sent := Advanced(begun, t, now, result);
    assert At(sent, t).Leaving?;
    LeavesNow(sent, t, now, result);
  }

  /** The debounced callback with nobody else acting: it sends the size of the surface, exactly when the mode is
      follow, one monitor is used, the session is connected and the surface is not empty. */
  lemma CallbackDoesExactly(w: World, t: nat, now: nat, result: ResizeResult)
    requires At(w, t) == CallbackEntered
    ensures var w' := Finished(w, t, now, result);
            if !w.settings.fixed && !w.multimonActive && w.connected && w.surface.width > 0 && w.surface.height > 0 then
              LeftSending(w, w', t, w.settings, w.coalescer,
                          Send(w.surface, true, w.surface,
                               S.Begun(w.settings, w.surface.width, w.surface.height, now), false), now, result)
            else LeftAlone(w, w', t)
  {
    var w1 := Advanced(w, t, now, result);
    if At(w1, t).Leaving? {
      LeavesNow(w1, t, now, result);
    } else {
      assert At(w1, t).CallbackUnfixed?;
      UnfixedCallbackDoesExactly(w1, t, now, result);
    }
  }

  lemma UnfixedCallbackDoesExactly(w: World, t: nat, now: nat, result: ResizeResult)
    requires At(w, t) == CallbackUnfixed
    ensures var w' := Finished(w, t, now, result);
            if !w.multimonActive && w.connected && w.surface.width > 0 && w.surface.height > 0 then
              LeftSending(w, w', t, w.settings, w.coalescer,
                          Send(w.surface, true, w.surface,
                               S.Begun(w.settings, w.surface.width, w.surface.height, now), false), now, result)
            else LeftAlone(w, w', t)
  {
    var w2 := Advanced(w, t, now, result);
    if At(w2, t).Leaving? {
      LeavesNow(w2, t, now, result);
    } else {
      assert At(w2, t).CallbackSingle?;
      var w3 := Advanced(w2, t, now, result);
      if At(w3, t).Leaving? {
        LeavesNow(w3, t, now, result);
      } else {
        assert At(w3, t).CallbackConnected?;
        var w4 := Advanced(w3, t, now, result);
        if At(w4, t).Leaving? {
          LeavesNow(w4, t, now, result);
        } else {
          AppliesAlone(w4, t, now, result, Applying(w.surface, true, w.surface));
        }
      }
    }
  }

  /** A toolbar request with nobody else acting: it sends, with nothing left pending in the debounce, the pinned size
      or in follow mode the size of the surface; exactly when the session is connected with one monitor, the surface
      is not empty and the choice is allowed. Otherwise it changes nothing. */
  lemma ToolbarDoesExactly(w: World, t: nat, now: nat, result: ResizeResult, fixed: bool, asked: Size)
    requires At(w, t) == ToolbarEntered(fixed, asked)
    ensures var w' := Finished(w, t, now, result);
            if w.connected && !w.multimonActive && w.surface.width > 0 && w.surface.height > 0
               && S.IsAllowedChoice(w.settings, S.Choose(fixed, asked.width, asked.height)) then
              var settings := w.settings.(fixed := fixed, requestedWidth := if fixed then asked.width else 0,
                                          requestedHeight := if fixed then asked.height else 0);
              var size := if fixed then asked else w.surface;
              LeftSending(w, w', t, settings,
                          w.coalescer.(pending := false, generation := w.coalescer.generation + 1),
                          Send(size, !fixed, asked, S.Begun(settings, size.width, size.height, now), false), now,
                          result)
            else LeftAlone(w, w', t)
  {
    var w1 := Advanced(w, t, now, result);
    if At(w1, t).Leaving? {
      LeavesNow(w1, t, now, result);
    } else {
      assert At(w1, t).ToolbarChecked?;
      var w2 := Advanced(w1, t, now, result);
      if At(w2, t).Leaving? {
        LeavesNow(w2, t, now, result);
      } else {
        assert At(w2, t) == ToolbarSized(fixed, asked, w.surface);
        SizedToolbarDoesExactly(w2, t, now, result, fixed, asked, w.surface);
      }
    }
  }

  lemma SelectedToolbarDoesExactly(w: World, t: nat, now: nat, result: ResizeResult, fixed: bool, asked: Size,
                                   surface: Size)
    requires At(w, t) == ToolbarSelected(fixed, asked, surface)
    ensures var size := if fixed then asked else surface;
            LeftSending(w, Finished(w, t, now, result), t, w.settings,
                        w.coalescer.(pending := false, generation := w.coalescer.generation + 1),
                        Send(size, !fixed, asked, S.Begun(w.settings, size.width, size.height, now), w.multimonActive),
                        now, result)
  {
    AppliesAlone(Advanced(w, t, now, result), t, now, result,
                 Applying(if fixed then asked else surface, !fixed, asked));
  }

  lemma SizedToolbarDoesExactly(w: World, t: nat, now: nat, result: ResizeResult, fixed: bool, asked: Size,
                                surface: Size)
    requires At(w, t) == ToolbarSized(fixed, asked, surface)
    ensures var w' := Finished(w, t, now, result);
            if S.IsAllowedChoice(w.settings, S.Choose(fixed, asked.width, asked.height)) then
              var settings := w.settings.(fixed := fixed, requestedWidth := if fixed then asked.width else 0,
                                          requestedHeight := if fixed then asked.height else 0);
              var size := if fixed then asked else surface;
              LeftSending(w, w', t, settings,
                          w.coalescer.(pending := false, generation := w.coalescer.generation + 1),
                          Send(size, !fixed, asked, S.Begun(settings, size.width, size.height, now), w.multimonActive),
                          now, result)
            else LeftAlone(w, w', t)
  {
    var w3 := Advanced(w, t, now, result);
    if At(w3, t).Leaving? {
      LeavesNow(w3, t, now, result);
    } else {
      assert At(w3, t).ToolbarSelected?;
      SelectedToolbarDoesExactly(w3, t, now, result, fixed, asked, surface);
    }
  }

  /** A surface event with nobody else acting: in follow mode, with one monitor, a surface that is not empty and the
      session connected, it leaves a request pending in the debounce or, when it flushes, sends the size of the
      surface at once with nothing left pending. Otherwise it changes nothing. */
  lemma SurfaceEventDoesExactly(w: World, t: nat, now: nat, result: ResizeResult, flush: bool)
    requires At(w, t) == FollowEntered(flush)
    ensures var w' := Finished(w, t, now, result);
            var generation := w.coalescer.generation + 1;
            if w.settings.fixed || w.multimonActive || w.surface.width == 0 || w.surface.height == 0
               || !w.connected then
              LeftAlone(w, w', t)
            else if flush then
              LeftSending(w, w', t, w.settings,
                          w.coalescer.(request := 0, pending := false, generation := generation),
                          Send(w.surface, true, w.surface,
                               S.Begun(w.settings, w.surface.width, w.surface.height, now), false), now, result)
            else
              LeftWith(w, w', t, w.settings, w.coalescer.(request := 0, pending := true, generation := generation),
                       w.multimonActive, w.sends)
  {
    var w1 := Advanced(w, t, now, result);
    if At(w1, t).Leaving? {
      LeavesNow(w1, t, now, result);
    } else {
      assert At(w1, t) == FollowUnfixed(flush);
      var w2 := Advanced(w1, t, now, result);
      if At(w2, t).Leaving? {
        LeavesNow(w2, t, now, result);
      } else {
        assert At(w2, t) == FollowSingle(flush);
        SingleSurfaceEventDoesExactly(w2, t, now, result, flush);
      }
    }
  }

  lemma SingleSurfaceEventDoesExactly(w: World, t: nat, now: nat, result: ResizeResult, flush: bool)
    requires At(w, t) == FollowSingle(flush) && !w.settings.fixed && !w.multimonActive
    ensures var w' := Finished(w, t, now, result);
            var generation := w.coalescer.generation + 1;
            if w.surface.width == 0 || w.surface.height == 0 || !w.connected then LeftAlone(w, w', t)
            else if flush then
              LeftSending(w, w', t, w.settings,
                          w.coalescer.(request := 0, pending := false, generation := generation),
                          Send(w.surface, true, w.surface,
                               S.Begun(w.settings, w.surface.width, w.surface.height, now), false), now, result)
            else
              LeftWith(w, w', t, w.settings, w.coalescer.(request := 0, pending := true, generation := generation),
                       w.multimonActive, w.sends)
  {
    var w3 := Advanced(w, t, now, result);
    if At(w3, t).Leaving? {
      LeavesNow(w3, t, now, result);
    } else {
      assert At(w3, t) == FollowSized(flush);
      var w4 := Advanced(w3, t, now, result);
      if At(w4, t).Leaving? {
        LeavesNow(w4, t, now, result);
      } else {
        assert At(w4, t) == FollowConnected(flush);
        var w5 := Advanced(w4, t, now, result);
        assert Finished(w3, t, now, result) == Finished(w4, t, now, result) == Finished(w5, t, now, result);
        if flush {
          CallbackDoesExactly(w5, t, now, result);
        } else {
          LeavesNow(w5, t, now, result);
        }
      }
    }
  }

  lemma SwappedToSeveralDoesExactly(w: World, t: nat, now: nat, result: ResizeResult, wasMultimon: bool)
    requires At(w, t) == LayoutSwapped(true, wasMultimon)
    ensures LeftWith(w, Finished(w, t, now, result), t, w.settings,
                     w.coalescer.(pending := false, generation := w.coalescer.generation + 1), w.multimonActive,
                     w.sends)
  {
    LeavesNow(Advanced(w, t, now, result), t, now, result);
  }

  lemma SeveralMonitorsDoExactly(w: World, t: nat, now: nat, result: ResizeResult)
    requires At(w, t) == LayoutEntered(true)
    ensures LeftWith(w, Finished(w, t, now, result), t, S.WithMultimon(w.settings, true),
                     w.coalescer.(pending := false, generation := w.coalescer.generation + 1), true, w.sends)
  {
    var w1 := Advanced(w, t, now, result);
    var w2 := Advanced(w1, t, now, result);
    assert At(w2, t) == LayoutSwapped(true, w.multimonActive);
    SwappedToSeveralDoesExactly(w2, t, now, result, w.multimonActive);
  }

  lemma SwappedToOneDoesExactly(w: World, t: nat, now: nat, result: ResizeResult, wasMultimon: bool)
    requires At(w, t) == LayoutSwapped(false, wasMultimon) && !w.multimonActive
    ensures LeftWith(w, Finished(w, t, now, result), t, w.settings,
                     if wasMultimon || w.settings.fixed || !w.connected || w.surface.width == 0
                        || w.surface.height == 0 then w.coalescer
                     else w.coalescer.(request := 0, pending := true, generation := w.coalescer.generation + 1),
                     false, w.sends)
  {
    var w3 := Advanced(w, t, now, result);
    if wasMultimon {
      LeavesNow(w3, t, now, result);
    } else {
      assert At(w3, t) == FollowEntered(false);
      SurfaceEventDoesExactly(w3, t, now, result, false);
    }
  }

  lemma OneMonitorDoesExactly(w: World, t: nat, now: nat, result: ResizeResult)
    requires At(w, t) == LayoutEntered(false)
    ensures LeftWith(w, Finished(w, t, now, result), t, w.settings.(multimon := false),
                     if w.multimonActive || w.settings.fixed || !w.connected || w.surface.width == 0
                        || w.surface.height == 0 then w.coalescer
                     else w.coalescer.(request := 0, pending := true, generation := w.coalescer.generation + 1),
                     false, w.sends)
  {
    var w1 := Advanced(w, t, now, result);
    var w2 := Advanced(w1, t, now, result);
    assert At(w2, t) == LayoutSwapped(false, w.multimonActive);
    SwappedToOneDoesExactly(w2, t, now, result, w.multimonActive);
  }

  /** The layout callback with nobody else acting: both records of the layout say what the layout is. Several
      monitors leave nothing pending, nothing pinned and no request open; staying with one goes on like a surface
      event that does not flush. */
  lemma LayoutDoesExactly(w: World, t: nat, now: nat, result: ResizeResult, multimon: bool)
    requires At(w, t) == LayoutEntered(multimon)
    ensures var w' := Finished(w, t, now, result);
            && w'.lock.Free? && w'.settings.multimon == w'.multimonActive == multimon && w'.sends == w.sends
            && (multimon ==> !w'.settings.fixed && !w'.settings.pending && !w'.coalescer.pending)
            && (!multimon ==> w'.settings == w.settings.(multimon := false))
            && (!multimon ==>
                  if w.multimonActive || w.settings.fixed || !w.connected || w.surface.width == 0
                     || w.surface.height == 0 then w'.coalescer == w.coalescer
                  else
                    w'.coalescer == w.coalescer.(request := 0, pending := true,
                                                 generation := w.coalescer.generation + 1))
  {
    if multimon {
      SeveralMonitorsDoExactly(w, t, now, result);
    } else {
      OneMonitorDoesExactly(w, t, now, result);
    }
  }

  /** What happens outside the lock. Taking a request out leaves none pending and does not touch its number; a
      presented frame is known when it is not empty and of the current generation; a reset starts a generation with
      nothing pinned, nothing open and no connection, an invalidated surface one with no known size and nothing open. */
  lemma OutsideStepsDoExactly(w: World, step: Step)
    requires Enabled(w, step) && !step.Enter? && !step.Advance?
    ensures var w' := Next(w, step);
            var s, s' := w.settings, w'.settings;
            && w'.lock == w.lock && w'.sends == w.sends && w'.multimonActive == w.multimonActive
            && (!step.Dequeue? ==> w'.threads == w.threads)
            && match step
               case Dequeue(t) =>
                 && At(w', t) == Dequeued && s' == s && !w'.coalescer.pending
                 && w'.coalescer == w.coalescer.(pending := false)
               case SessionCancel =>
                 s' == s && !w'.coalescer.pending && w'.coalescer.generation == w.coalescer.generation + 1
               case SessionReset =>
                 && !s'.fixed && !s'.pending && !s'.connected && s'.requestedWidth == 0 && s'.requestedHeight == 0
                 && s'.multimon == s.multimon && s'.generation == s.generation + 1
               case SessionConnected => s' == s.(connected := true)
               case SurfaceInvalidated =>
                 && s'.actualWidth == 0 && s'.actualHeight == 0 && !s'.pending && s'.generation == s.generation + 1
                 && s'.fixed == s.fixed && s'.requestedWidth == s.requestedWidth
                 && s'.requestedHeight == s.requestedHeight
               case FramePresented(generation, size) =>
                 if generation != s.generation || size.width == 0 || size.height == 0 then s' == s
                 else s'.actualWidth == size.width && s'.actualHeight == size.height && s'.presentedSinceBegin
               case _ => s' == s && w'.coalescer == w.coalescer
  {
  }
}
