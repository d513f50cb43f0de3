/** Asking the UI for a permission (napi/permission_request_bridge.cpp). One call owns the pending request, calls
    that arrive meanwhile join it. Every method below is one region held under the bridge's mutex; the wait on the
    condition variable ends a region and its wake-up begins the next. */
module PermissionRequestBridge {

  const ID_LIMIT: nat := 0x1_0000_0000
  const IDS: nat := 0xFFFF_FFFF

  datatype BridgeState = BridgeState(nextRequestId: nat, pendingRequestId: nat, pending: bool, completed: bool,
                                     granted: bool)

  const IDLE := BridgeState(1, 0, false, false, false)

  datatype Entry = Refused | Joined | Owner(requestId: nat)

  /** The 32-bit counter after one more id: it skips 0 when it wraps. */
  function AfterId(next: nat): nat {
    var n := (next + 1) % ID_LIMIT;
    if n == 0 then 1 else n
  }

  function Entered(s: BridgeState, sinkIsSet: bool): (BridgeState, Entry) {
    if !sinkIsSet then (s, Refused)
    else if s.pending then (s, Joined)
    else (BridgeState(AfterId(s.nextRequestId), s.nextRequestId, true, false, false), Owner(s.nextRequestId))
  }

  predicate Accepts(s: BridgeState, requestId: nat) { s.pending && s.pendingRequestId == requestId }

  function Answered(s: BridgeState, requestId: nat, granted: bool): BridgeState {
    if Accepts(s, requestId) then s.(granted := granted, completed := true) else s
  }

  /** What the owner of `requestId` returns when its wait ends, by an answer or by its timeout. */
  predicate OwnerResult(s: BridgeState, requestId: nat) { s.completed && s.pendingRequestId == requestId && s.granted }

  function OwnerLeft(s: BridgeState, requestId: nat): BridgeState {
    if s.pendingRequestId == requestId then BridgeState(s.nextRequestId, 0, false, false, false) else s
  }

  predicate JoinerResult(s: BridgeState) { s.completed && s.granted }

  class Bridge {
    var nextRequestId: nat
    var pendingRequestId: nat
    var pending: bool
    var completed: bool
    var granted: bool

    ghost function State(): BridgeState
      reads this
    {
      BridgeState(nextRequestId, pendingRequestId, pending, completed, granted)
    }

    constructor ()
      ensures State() == IDLE
    {
      nextRequestId, pendingRequestId := 1, 0;
      pending, completed, granted := false, false, false;
    }

    method NextRequestId() returns (requestId: nat)
      modifies this`nextRequestId
      ensures requestId == old(nextRequestId) && nextRequestId == AfterId(old(nextRequestId))
    {
      requestId := nextRequestId;
      nextRequestId := (nextRequestId + 1) % ID_LIMIT;
      if nextRequestId == 0 {
        nextRequestId := 1;
      }
    }

    method EnterRequest(sinkIsSet: bool) returns (entry: Entry)
      modifies this
      ensures (State(), entry) == Entered(old(State()), sinkIsSet)
    {
      if !sinkIsSet {
        return Refused;
      }
      if pending {
        return Joined;
      }
      var requestId := NextRequestId();
      pendingRequestId := requestId;
      pending := true;
      completed := false;
      granted := false;
      entry := Owner(requestId);
    }

    method CompleteFromUi(requestId: nat, answer: bool) returns (accepted: bool)
      modifies this
      ensures accepted == Accepts(old(State()), requestId)
      ensures State() == Answered(old(State()), requestId, answer)
    {
      if !pending || pendingRequestId != requestId {
        return false;
      }
      granted := answer;
      completed := true;
      accepted := true;
    }

    method LeaveAsOwner(requestId: nat) returns (result: bool)
      modifies this
      ensures result == OwnerResult(old(State()), requestId)
      ensures State() == OwnerLeft(old(State()), requestId)
    {
      var wasCompleted := completed && pendingRequestId == requestId;
      result := wasCompleted && granted;
      if pendingRequestId == requestId {
        pendingRequestId := 0;
        pending := false;
        completed := false;
        granted := false;
      }
    }

    method LeaveAsJoiner() returns (result: bool)
      ensures result == JoinerResult(State())
    {
      result := completed && granted;
    }
  }

  // ---- Runs: any number of callers, in any order, with any answers and timeouts ----

  datatype Call = Owning(requestId: nat) | Joining

  /** `calls` holds the calls in progress, `issued` counts the requests that got an id. */
  datatype World = World(s: BridgeState, calls: map<nat, Call>, issued: nat)

  datatype Step =
    | Enter(caller: nat, sinkIsSet: bool)
    | Answer(requestId: nat, granted: bool)
    | Leave(caller: nat)

  const START := World(IDLE, map[], 0)

  predicate Enabled(w: World, step: Step) {
    match step
    case Enter(caller, _) => caller !in w.calls
    case Answer(_, _) => true
    case Leave(caller) => caller in w.calls
  }

  function Next(w: World, step: Step): World
    requires Enabled(w, step)
  {
    match step
    case Enter(caller, sinkIsSet) =>
      var (s, entry) := Entered(w.s, sinkIsSet);
      (match entry
       case Refused => w
       case Joined => World(s, w.calls[caller := Joining], w.issued)
       case Owner(id) => World(s, w.calls[caller := Owning(id)], w.issued + 1))
    case Answer(id, granted) => w.(s := Answered(w.s, id, granted))
    case Leave(caller) =>
      var left := w.calls - {caller};
      (match w.calls[caller]
       case Owning(id) => World(OwnerLeft(w.s, id), left, w.issued)
       case Joining => w.(calls := left))
  }

  /** What the call of `caller` returns if its wait ends now. */
  predicate Result(w: World, caller: nat)
    requires caller in w.calls
  {
    match w.calls[caller]
    case Owning(id) => OwnerResult(w.s, id)
    case Joining => JoinerResult(w.s)
  }

  /** A run: the steps taken, and the worlds before, between and after them. */
  datatype Run = Run(steps: seq<Step>, worlds: seq<World>)

  predicate IsStep(r: Run, i: nat)
    requires i < |r.steps| && |r.worlds| == |r.steps| + 1
  {
    Enabled(r.worlds[i], r.steps[i]) && r.worlds[i + 1] == Next(r.worlds[i], r.steps[i])
  }

  predicate IsRun(r: Run) {
    && |r.worlds| == |r.steps| + 1
    && r.worlds[0] == START
    && forall i | 0 <= i < |r.steps| :: IsStep(r, i)
  }

  /** The id of the i-th request, counting from 0. */
  function IdOf(i: nat): (id: nat)
    ensures 1 <= id < ID_LIMIT
  {
    i % IDS + 1
  }

  /** At most one call owns a request, and the bridge describes it; without an owner nothing is pending. */
  predicate Inv(w: World) {
    && (forall a, b | a in w.calls && b in w.calls && w.calls[a].Owning? && w.calls[b].Owning? :: a == b)
    && (forall a | a in w.calls && w.calls[a].Owning? :: w.s.pending && w.calls[a].requestId == w.s.pendingRequestId)
    && (w.s.pending ==> exists a :: a in w.calls && w.calls[a].Owning?)
    && (if w.s.pending then w.issued > 0 && w.s.pendingRequestId == IdOf(w.issued - 1)
        else w.s.pendingRequestId == 0 && !w.s.completed)
    && (w.s.completed || !w.s.granted)
    && w.s.nextRequestId == IdOf(w.issued)
  }

  lemma IdsAdvance(i: nat)
    ensures AfterId(IdOf(i)) == IdOf(i + 1)
  {
    var q, r := i / IDS, i % IDS;
    assert i + 1 == q * IDS + (r + 1);
    if r + 1 == IDS {
      assert (i + 1) == (q + 1) * IDS;
      assert (i + 1) % IDS == 0;
    } else {
      assert (i + 1) % IDS == r + 1;
    }
  }

  lemma StepKeepsInv(w: World, step: Step)
    requires Inv(w) && Enabled(w, step)
    ensures Inv(Next(w, step))
  {
    IdsAdvance(w.issued);
    var w' := Next(w, step);
    if step.Enter? {
      if step.sinkIsSet && !w.s.pending {
        assert step.caller in w'.calls && w'.calls[step.caller].Owning?;
      } else if w.s.pending {
        var a :| a in w.calls && w.calls[a].Owning?;
        assert a in w'.calls && w'.calls[a].Owning?;
      }
    } else if step.Leave? && w.s.pending && w.calls[step.caller].Joining? {
      var a :| a in w.calls && w.calls[a].Owning?;
      assert a in w'.calls && w'.calls[a].Owning?;
    }
  }

  lemma {:induction false} RunKeepsInv(r: Run, n: nat)
    requires IsRun(r) && n <= |r.steps|
    ensures Inv(r.worlds[n])
  {
    if n > 0 {
      RunKeepsInv(r, n - 1);
      assert IsStep(r, n - 1);
      StepKeepsInv(r.worlds[n - 1], r.steps[n - 1]);
    }
  }

  /** In every reachable state at most one call owns a request; something is pending exactly while one does; and
      the pending id is that call's and never 0. */
  lemma OneOwnerAtATime(r: Run, n: nat)
    requires IsRun(r) && n <= |r.steps|
    ensures var w := r.worlds[n];
            && (forall a, b | a in w.calls && b in w.calls && w.calls[a].Owning? && w.calls[b].Owning? :: a == b)
            && (w.s.pending <==> exists a :: a in w.calls && w.calls[a].Owning?)
            && (forall a | a in w.calls && w.calls[a].Owning? ::
                  w.calls[a].requestId == w.s.pendingRequestId && 0 < w.calls[a].requestId < ID_LIMIT)
            && (w.s.pendingRequestId != 0 <==> w.s.pending)
  {
    RunKeepsInv(r, n);
  }

  /** The requests that got an id before step n: the entries with a sink that found nothing pending. */
  function Owners(r: Run, n: nat): nat
    requires IsRun(r) && n <= |r.steps|
  {
    if n == 0 then 0
    else Owners(r, n - 1) + if BecomesOwner(r.worlds[n - 1], r.steps[n - 1]) then 1 else 0
  }

  predicate BecomesOwner(w: World, step: Step) { step.Enter? && step.sinkIsSet && !w.s.pending }

  lemma {:induction false} IssuedCountsOwners(r: Run, n: nat)
    requires IsRun(r) && n <= |r.steps|
    ensures r.worlds[n].issued == Owners(r, n)
  {
    if n > 0 {
      IssuedCountsOwners(r, n - 1);
      assert IsStep(r, n - 1);
    }
  }

  /** A call that enters is refused without a sink, joins while something is pending, and otherwise owns a request of
      its own that nobody has answered yet; the k-th such request, from 0, has the id k % (2^32 - 1) + 1. */
  lemma EntryDoesExactly(r: Run, n: nat)
    requires IsRun(r) && n < |r.steps| && r.steps[n].Enter?
    ensures var before, after, step := r.worlds[n], r.worlds[n + 1], r.steps[n];
            if !step.sinkIsSet then after == before
            else if before.s.pending then
              after.calls == before.calls[step.caller := Joining] && after.s == before.s
            else
              var id := Owners(r, n) % 0xFFFF_FFFF + 1;
              && after.calls == before.calls[step.caller := Owning(id)] && after.s.pendingRequestId == id
              && after.s.pending && !after.s.completed && !after.s.granted
  {
    assert IsStep(r, n);
    RunKeepsInv(r, n);
    IssuedCountsOwners(r, n);
  }

  /** An answer is taken exactly when it names the pending request; it then stands until the next one or until the
      owner leaves. A leaving joiner changes nothing in the bridge, a leaving owner leaves nothing pending. */
  lemma AnswerAndLeaveDoExactly(r: Run, n: nat)
    requires IsRun(r) && n < |r.steps| && !r.steps[n].Enter?
    ensures var before, after, step := r.worlds[n], r.worlds[n + 1], r.steps[n];
            match step
            case Answer(id, granted) =>
              && after.calls == before.calls
              && after.s == if before.s.pending && before.s.pendingRequestId == id
                            then before.s.(completed := true, granted := granted) else before.s
            case Leave(caller) =>
              && caller in before.calls && after.calls == before.calls - {caller}
              && (if before.calls[caller].Joining? then after.s == before.s
                  else !after.s.pending && after.s.pendingRequestId == 0 && !after.s.completed && !after.s.granted)
            case _ => true
  {
    assert IsStep(r, n);
    RunKeepsInv(r, n);
  }

  // ---- A call returns TRUE only for a grant ----

  predicate PendingAs(w: World, issued: nat) { w.s.pending && w.issued == issued }

  /** From j to n one and the same request is pending. */
  predicate SamePending(r: Run, j: nat, n: nat)
    requires IsRun(r) && j <= n <= |r.steps|
  {
    forall m | j <= m <= n :: PendingAs(r.worlds[m], r.worlds[n].issued)
  }

  predicate AcceptedAnswer(r: Run, m: nat)
    requires IsRun(r) && m < |r.steps|
  {
    r.steps[m].Answer? && r.worlds[m].s.pending && r.steps[m].requestId == r.worlds[m].s.pendingRequestId
  }

  /** The step at j is the UI's last accepted answer for the request pending at n, and it said `granted`. */
  predicate IsLastAnswer(r: Run, j: nat, n: nat, granted: bool)
    requires IsRun(r) && j < n <= |r.steps|
  {
    && r.steps[j] == Answer(r.worlds[n].s.pendingRequestId, granted)
    && SamePending(r, j, n)
    && forall m | j < m < n :: !AcceptedAnswer(r, m)
  }

  /** A completed request was answered by the UI, with the answer the bridge holds. */
  lemma {:induction false} CompletedWasAnswered(r: Run, n: nat) returns (j: nat)
    requires IsRun(r) && n <= |r.steps| && r.worlds[n].s.completed
    ensures j < n && IsLastAnswer(r, j, n, r.worlds[n].s.granted)
    decreases n
  {
    assert n > 0;
    var k := n - 1;
    assert IsStep(r, k);
    RunKeepsInv(r, k);
    if AcceptedAnswer(r, k) {
      j := k;
    } else {
      j := CompletedWasAnswered(r, k);
      assert r.worlds[k].issued == r.worlds[n].issued;
    }
  }

  predicate CallIs(w: World, caller: nat, call: Call) { caller in w.calls && w.calls[caller] == call }

  /** The call in progress for `caller` at n was entered by the step at e. */
  predicate IsEntryOf(r: Run, e: nat, n: nat, caller: nat)
    requires IsRun(r) && e < n <= |r.steps| && caller in r.worlds[n].calls
  {
    && r.steps[e] == Enter(caller, true)
    && (forall m | e < m <= n :: CallIs(r.worlds[m], caller, r.worlds[n].calls[caller]))
    && (r.worlds[n].calls[caller].Owning? ==> SamePending(r, e + 1, n) && !r.worlds[e].s.pending)
  }

  lemma {:induction false} EntryOf(r: Run, n: nat, caller: nat) returns (e: nat)
    requires IsRun(r) && n <= |r.steps| && caller in r.worlds[n].calls
    ensures e < n && IsEntryOf(r, e, n, caller)
    decreases n
  {
    var k := n - 1;
    assert IsStep(r, k);
    RunKeepsInv(r, k);
    RunKeepsInv(r, n);
    if caller !in r.worlds[k].calls {
      e := k;
    } else {
      e := EntryOf(r, k, caller);
      assert r.worlds[k].calls[caller] == r.worlds[n].calls[caller];
    }
  }

  /** A call that returns TRUE does so for a request that is pending while the call returns, that the UI granted,
      and whose grant was the UI's last accepted answer. For the owner, the request is its own and the grant
      came during the call. */
  lemma TrueOnlyIfGranted(r: Run, n: nat, caller: nat) returns (e: nat, j: nat)
    requires IsRun(r) && n < |r.steps| && r.steps[n] == Leave(caller)
    requires caller in r.worlds[n].calls && Result(r.worlds[n], caller)
    ensures e < n && IsEntryOf(r, e, n, caller)
    ensures j < n && IsLastAnswer(r, j, n, true)
    ensures r.worlds[n].calls[caller].Owning? ==>
              e < j && r.worlds[n].calls[caller].requestId == r.worlds[n].s.pendingRequestId
  {
    e := EntryOf(r, n, caller);
    j := CompletedWasAnswered(r, n);
    assert j <= e ==> PendingAs(r.worlds[e], r.worlds[n].issued);
  }

  /** The last accepted answer for the pending request is the one the bridge holds. */
  lemma {:induction false} LastAnswerHolds(r: Run, j: nat, n: nat, granted: bool)
    requires IsRun(r) && j < n <= |r.steps| && IsLastAnswer(r, j, n, granted)
    ensures r.worlds[n].s.completed && r.worlds[n].s.granted == granted
    decreases n
  {
    var k := n - 1;
    assert IsStep(r, k) && PendingAs(r.worlds[k], r.worlds[n].issued);
    RunKeepsInv(r, k);
    RunKeepsInv(r, n);
    if j < k {
      assert !AcceptedAnswer(r, k);
      LastAnswerHolds(r, j, k, granted);
    }
  }

  /** Any call, owner or joiner, returns TRUE exactly when it leaves while a request is pending whose last accepted
      answer from the UI was a grant. For a joiner that means before the owner of the granted request has left. */
  lemma TrueExactlyIfGranted(r: Run, n: nat, caller: nat)
    requires IsRun(r) && n < |r.steps| && r.steps[n] == Leave(caller) && caller in r.worlds[n].calls
    ensures Result(r.worlds[n], caller) <==> exists j: nat :: j < n && IsLastAnswer(r, j, n, true)
  {
    RunKeepsInv(r, n);
    if Result(r.worlds[n], caller) {
      var j := CompletedWasAnswered(r, n);
    }
    if j: nat :| j < n && IsLastAnswer(r, j, n, true) {
      LastAnswerHolds(r, j, n, true);
    }
  }

  // ---- Ids and late answers ----

  lemma SameIdExactlyAfterAWrap(i: nat, k: nat)
    requires i <= k
    ensures IdOf(i) == IdOf(k) <==> (k - i) % IDS == 0
  {
    var qi, ri, qk, rk := i / IDS, i % IDS, k / IDS, k % IDS;
    assert i == qi * IDS + ri && k == qk * IDS + rk;
    assert k - i == (qk - qi) * IDS + (rk - ri);
    if ri == rk {
      MultipleHasNoRemainder(qk - qi);
    } else {
      NoMultipleBetween(rk - ri, (k - i) / IDS - qk + qi);
    }
  }

  lemma NoMultipleBetween(x: int, m: int)
    requires 0 - IDS < x < IDS && x != 0
    ensures x != m * IDS
  {
  }

  lemma MultipleHasNoRemainder(m: int)
    ensures (m * IDS) % IDS == 0
  {
  }

  /** An answer that names the id of the i-th request once another one may be pending: it is accepted exactly when
      a request is pending whose distance from the i-th is a whole number of turns of the counter. For a request
      that is over (the i-th is not the pending one) that takes at least 2^32 - 1 further requests. */
  lemma LateAnswer(r: Run, n: nat, i: nat)
    requires IsRun(r) && n <= |r.steps| && i < r.worlds[n].issued
    ensures var w := r.worlds[n];
            && (Accepts(w.s, IdOf(i)) <==> w.s.pending && (w.issued - 1 - i) % 0xFFFF_FFFF == 0)
            && (i < w.issued - 1 && Accepts(w.s, IdOf(i)) ==> w.issued - 1 - i >= 0xFFFF_FFFF)
  {
    RunKeepsInv(r, n);
    SameIdExactlyAfterAWrap(i, r.worlds[n].issued - 1);
  }

  // ---- What the protocol does not promise ----

  /** The joiners that miss a grant are those of TrueExactlyIfGranted that leave too late. A joiner that is not
      scheduled between the answer and the owner's return is one: the owner returns TRUE and clears the grant, the
      joiner waits on and returns FALSE when its timeout expires. */
  lemma JoinerCanMissTheGrant() returns (r: Run)
    ensures IsRun(r) && r.steps == [Enter(0, true), Enter(1, true), Answer(1, true), Leave(0), Leave(1)]
    ensures 0 in r.worlds[3].calls && Result(r.worlds[3], 0)
    ensures 1 in r.worlds[3].calls && Result(r.worlds[3], 1)
    ensures 1 in r.worlds[4].calls && !Result(r.worlds[4], 1)
  {
    var w1 := Next(START, Enter(0, true));
    var w2 := Next(w1, Enter(1, true));
    var w3 := Next(w2, Answer(1, true));
    var w4 := Next(w3, Leave(0));
    var w5 := Next(w4, Leave(1));
    r := Run([Enter(0, true), Enter(1, true), Answer(1, true), Leave(0), Leave(1)], [START, w1, w2, w3, w4, w5]);
  }
}
