/** Turning scroll offsets into whole wheel steps (input/xcomponent_touch_policy.cpp), over the reals. */
module ScrollPolicy {

  /** The cast of a quotient to an integer: toward zero. */
  function Truncate(r: real): int { if r >= 0.0 then r.Floor else -((-r).Floor) }

  function Steps(remainder: real, quantum: real): int
    requires quantum > 0.0
  {
    Truncate(remainder / quantum)
  }

  function Left(remainder: real, quantum: real): real
    requires quantum > 0.0
  {
    remainder - Steps(remainder, quantum) as real * quantum
  }

  function Safe(quantum: real): (q: real)
    ensures q > 0.0
  {
    if quantum > 0.0 then quantum else 1.0
  }

  function Distance(a: real, b: real): real { if a >= b then a - b else b - a }

  datatype Axes = Axes(source: int, quantum: real, remainderX: real, remainderY: real)

  datatype StepPair = StepPair(horizontal: int, vertical: int)

  function AxesBegun(source: int, quantum: real): Axes { Axes(source, Safe(quantum), 0.0, 0.0) }

  /** A new source, or a quantum more than a thousandth away, starts over. */
  function Ready(a: Axes, source: int, quantum: real): Axes {
    if a.source != source || Distance(a.quantum, Safe(quantum)) > 0.001 then AxesBegun(source, quantum) else a
  }

  function AxesUpdated(a: Axes, source: int, quantum: real, deltaX: real, deltaY: real): Axes
    requires a.quantum > 0.0
  {
    var r := Ready(a, source, quantum);
    r.(remainderX := Left(r.remainderX + deltaX, r.quantum), remainderY := Left(r.remainderY + deltaY, r.quantum))
  }

  function StepsTaken(a: Axes, source: int, quantum: real, deltaX: real, deltaY: real): StepPair
    requires a.quantum > 0.0
  {
    var r := Ready(a, source, quantum);
    StepPair(Steps(r.remainderX + deltaX, r.quantum), Steps(r.remainderY + deltaY, r.quantum))
  }

  method ConsumeSteps(remainder: real, quantum: real) returns (steps: int, rest: real)
    ensures quantum > 0.0 ==> steps == Steps(remainder, quantum) && rest == Left(remainder, quantum)
    ensures quantum <= 0.0 ==> steps == 0 && rest == remainder
  {
    if quantum <= 0.0 {
      return 0, remainder;
    }
    steps := Truncate(remainder / quantum);
    rest := remainder - steps as real * quantum;
  }

  class AxisScrollPolicy {
    var source: int
    var quantum: real
    var remainderX: real
    var remainderY: real

    ghost function Now(): Axes
      reads this
    {
      Axes(source, quantum, remainderX, remainderY)
    }

    constructor ()
      ensures Now() == Axes(-1, 1.0, 0.0, 0.0)
    {
      source, quantum, remainderX, remainderY := -1, 1.0, 0.0, 0.0;
    }

    method Begin(newSource: int, newQuantum: real)
      modifies this
      ensures Now() == AxesBegun(newSource, newQuantum)
    {
      source := newSource;
      quantum := if newQuantum > 0.0 then newQuantum else 1.0;
      remainderX, remainderY := 0.0, 0.0;
    }

    method Update(newSource: int, newQuantum: real, deltaX: real, deltaY: real) returns (taken: StepPair)
      requires quantum > 0.0
      modifies this
      ensures Now() == AxesUpdated(old(Now()), newSource, newQuantum, deltaX, deltaY)
      ensures taken == StepsTaken(old(Now()), newSource, newQuantum, deltaX, deltaY)
    {
      var safeQuantum := if newQuantum > 0.0 then newQuantum else 1.0;
      if source != newSource || Distance(quantum, safeQuantum) > 0.001 {
        Begin(newSource, safeQuantum);
      }
      remainderX := remainderX + deltaX;
      remainderY := remainderY + deltaY;
      var horizontal, vertical;
      horizontal, remainderX := ConsumeSteps(remainderX, quantum);
      vertical, remainderY := ConsumeSteps(remainderY, quantum);
      taken := StepPair(horizontal, vertical);
    }

    method End()
      modifies this
      ensures Now() == old(Now()).(source := -1, remainderX := 0.0, remainderY := 0.0)
    {
      source := -1;
      remainderX, remainderY := 0.0, 0.0;
    }
  }

  const SYSTEM_SOURCE: int := 2

  datatype Wheel = Vertical(steps: int) | Horizontal(steps: int)

  /** The wheel events of one update: vertical first, none for zero steps. */
  function WheelEvents(taken: StepPair): seq<Wheel> {
    (if taken.vertical != 0 then [Vertical(taken.vertical)] else [])
    + (if taken.horizontal != 0 then [Horizontal(taken.horizontal)] else [])
  }

  datatype Scroll = Scroll(active: bool, lastX: real, lastY: real, axes: Axes)

  datatype Touch = Touch(offsetX: real, offsetY: real, quantum: real)

  function ScrollBegun(t: Touch): Scroll { Scroll(true, t.offsetX, t.offsetY, AxesBegun(SYSTEM_SOURCE, t.quantum)) }

  /** An update of an inactive policy only begins. */
  function ScrollUpdated(s: Scroll, t: Touch): Scroll
    requires s.axes.quantum > 0.0
  {
    if !s.active then ScrollBegun(t)
    else Scroll(true, t.offsetX, t.offsetY,
                AxesUpdated(s.axes, SYSTEM_SOURCE, t.quantum, t.offsetX - s.lastX, t.offsetY - s.lastY))
  }

  function ScrollSteps(s: Scroll, t: Touch): StepPair
    requires s.axes.quantum > 0.0
  {
    if !s.active then StepPair(0, 0)
    else StepsTaken(s.axes, SYSTEM_SOURCE, t.quantum, t.offsetX - s.lastX, t.offsetY - s.lastY)
  }

  class SystemScrollPolicy {
    var active: bool
    var lastX: real
    var lastY: real
    const steps: AxisScrollPolicy

    ghost function Now(): Scroll
      reads this, steps
    {
      Scroll(active, lastX, lastY, steps.Now())
    }

    constructor ()
      ensures !active && fresh(steps) && steps.quantum > 0.0
    {
      active, lastX, lastY := false, 0.0, 0.0;
      steps := new AxisScrollPolicy();
    }

    method Begin(t: Touch)
      modifies this, steps
      ensures Now() == ScrollBegun(t)
    {
      active := true;
      lastX, lastY := t.offsetX, t.offsetY;
      steps.Begin(SYSTEM_SOURCE, t.quantum);
    }

    method Update(t: Touch) returns (events: seq<Wheel>)
      requires steps.quantum > 0.0
      modifies this, steps
      ensures Now() == ScrollUpdated(old(Now()), t) && steps.quantum > 0.0
      ensures events == WheelEvents(ScrollSteps(old(Now()), t))
    {
      if !active {
        Begin(t);
        return [];
      }
      var taken := steps.Update(SYSTEM_SOURCE, t.quantum, t.offsetX - lastX, t.offsetY - lastY);
      lastX, lastY := t.offsetX, t.offsetY;
      events := [];
      if taken.vertical != 0 {
        events := events + [Vertical(taken.vertical)];
      }
      if taken.horizontal != 0 {
        events := events + [Horizontal(taken.horizontal)];
      }
    }

    method End()
      modifies this, steps
      ensures Now() == Scroll(false, 0.0, 0.0, old(steps.Now()).(source := -1, remainderX := 0.0, remainderY := 0.0))
    {
      active := false;
      lastX, lastY := 0.0, 0.0;
      steps.End();
    }
  }

  // ---- One consumption ----

  lemma DivideBack(r: real, q: real)
    requires q > 0.0
    ensures (r / q) * q == r
  {
  }

  lemma TimesAtMost(x: real, y: real, q: real)
    requires q > 0.0 && x <= y
    ensures x * q <= y * q
  {
  }

  lemma Product(x: real, q: real)
    requires x > 0.0 && q > 0.0
    ensures x * q > 0.0
  {
  }

  lemma BelowOneMore(x: real, f: real, q: real)
    requires q > 0.0 && x < f + 1.0
    ensures x * q < f * q + q
  {
    calc { f * q + q - x * q; (f + 1.0 - x) * q; }
    Product(f + 1.0 - x, q);
  }

  lemma AboveOneLess(x: real, f: real, q: real)
    requires q > 0.0 && f - 1.0 < x
    ensures f * q - q < x * q
  {
    calc { x * q - f * q + q; (x - f + 1.0) * q; }
    Product(x - f + 1.0, q);
  }

  lemma RestBelow(r: real, x: real, f: real, q: real)
    requires q > 0.0 && r == x * q && f <= x < f + 1.0
    ensures 0.0 <= r - f * q < q
  {
    TimesAtMost(f, x, q);
    calc { r - f * q; x * q - f * q; < { BelowOneMore(x, f, q); } q; }
  }

  lemma RestAbove(r: real, x: real, f: real, q: real)
    requires q > 0.0 && r == x * q && f - 1.0 < x <= f
    ensures -q < r - f * q <= 0.0
  {
    TimesAtMost(x, f, q);
    calc { -q; < { AboveOneLess(x, f, q); } x * q - f * q; r - f * q; }
  }

  /** Whole steps are taken out; what is left is less than one step and keeps its sign. */
  lemma LeftIsBelowOneStep(remainder: real, quantum: real)
    requires quantum > 0.0
    ensures remainder >= 0.0 ==> 0.0 <= Left(remainder, quantum) < quantum
    ensures remainder <= 0.0 ==> -quantum < Left(remainder, quantum) <= 0.0
  {
    var x := remainder / quantum;
    DivideBack(remainder, quantum);
    SameSign(remainder, quantum);
    if x >= 0.0 {
      RestBelow(remainder, x, Steps(remainder, quantum) as real, quantum);
    } else {
      RestAbove(remainder, x, Steps(remainder, quantum) as real, quantum);
    }
  }

  lemma SameSign(r: real, q: real)
    requires q > 0.0
    ensures (r / q >= 0.0 <==> r >= 0.0) && (r / q == 0.0 <==> r == 0.0)
  {
  }

  lemma SmallMultipleIsZero(d: int, q: real, p: real)
    requires q > 0.0 && p == d as real * q && -q < p < q
    ensures d == 0
  {
    if d >= 1 {
      TimesAtMost(1.0, d as real, q);
    } else if d <= -1 {
      TimesAtMost(d as real, -1.0, q);
    }
  }

  lemma SameRestSameSteps(m: int, n: int, r: real, s: real, q: real)
    requires q > 0.0 && m as real * q + r == n as real * q + s && -q < s - r < q
    ensures m == n
  {
    Distribute(m as real, n as real, q);
    SmallMultipleIsZero(m - n, q, s - r);
  }

  lemma Distribute(a: real, b: real, q: real)
    ensures (a - b) * q == a * q - b * q && (a + b) * q == a * q + b * q
  {
  }

  /** The steps and the rest make up the movement; the rest is below one step and on the side of the movement. */
  predicate Splits(movement: real, steps: int, rest: real, quantum: real) {
    && steps as real * quantum + rest == movement
    && (movement >= 0.0 ==> 0.0 <= rest < quantum) && (movement <= 0.0 ==> -quantum < rest <= 0.0)
  }

  /** One update: another source, or a quantum more than a thousandth away, forgets what was left over and takes the
      new quantum; otherwise what was left over counts, in the old quantum. On each axis what there is to move is then
      split into whole steps and a rest. */
  lemma UpdateDoesExactly(a: Axes, source: int, quantum: real, deltaX: real, deltaY: real)
    requires a.quantum > 0.0
    ensures var asked := if quantum > 0.0 then quantum else 1.0;
            var over := a.source != source || a.quantum - asked > 0.001 || asked - a.quantum > 0.001;
            var a', taken := AxesUpdated(a, source, quantum, deltaX, deltaY),
                             StepsTaken(a, source, quantum, deltaX, deltaY);
            && a'.source == source && a'.quantum == (if over then asked else a.quantum)
            && Splits((if over then 0.0 else a.remainderX) + deltaX, taken.horizontal, a'.remainderX, a'.quantum)
            && Splits((if over then 0.0 else a.remainderY) + deltaY, taken.vertical, a'.remainderY, a'.quantum)
  {
    var r := Ready(a, source, quantum);
    LeftIsBelowOneStep(r.remainderX + deltaX, r.quantum);
    LeftIsBelowOneStep(r.remainderY + deltaY, r.quantum);
  }

  // ---- One axis of a gesture ----

  /** The steps sent so far and the remainder. */
  datatype Axis = Axis(sent: int, rest: real)

  function Moved(a: Axis, delta: real, quantum: real): Axis
    requires quantum > 0.0
  {
    Axis(a.sent + Steps(a.rest + delta, quantum), Left(a.rest + delta, quantum))
  }

  /** Moving through the offsets, beginning at the first. */
  function Walked(offsets: seq<real>, quantum: real): Axis
    requires offsets != [] && quantum > 0.0
  {
    var n := |offsets| - 1;
    if n == 0 then Axis(0, 0.0) else Moved(Walked(offsets[..n], quantum), offsets[n] - offsets[n - 1], quantum)
  }

  function Gap(offsets: seq<real>): real
    requires offsets != []
  {
    offsets[|offsets| - 1] - offsets[0]
  }

  /** The steps and the remainder make up the distance, and the remainder is below one step. */
  predicate Conserves(a: Axis, quantum: real, distance: real) {
    a.sent as real * quantum + a.rest == distance && -quantum < a.rest < quantum
  }

  lemma MoveConserves(a: Axis, quantum: real, distance: real, delta: real)
    requires quantum > 0.0 && Conserves(a, quantum, distance)
    ensures Conserves(Moved(a, delta, quantum), quantum, distance + delta)
  {
    LeftIsBelowOneStep(a.rest + delta, quantum);
    Distribute(a.sent as real, Steps(a.rest + delta, quantum) as real, quantum);
  }

  lemma {:induction false} AxisConserves(offsets: seq<real>, quantum: real)
    requires offsets != [] && quantum > 0.0
    ensures Conserves(Walked(offsets, quantum), quantum, Gap(offsets))
  {
    var n := |offsets| - 1;
    if n > 0 {
      AxisConserves(offsets[..n], quantum);
      MoveConserves(Walked(offsets[..n], quantum), quantum, Gap(offsets[..n]), offsets[n] - offsets[n - 1]);
    }
  }

  predicate OneWay(offsets: seq<real>, up: bool) {
    forall i | 0 < i < |offsets| :: if up then offsets[i - 1] <= offsets[i] else offsets[i - 1] >= offsets[i]
  }

  lemma {:induction false} RestKeepsDirection(offsets: seq<real>, quantum: real, up: bool)
    requires offsets != [] && quantum > 0.0 && OneWay(offsets, up)
    ensures if up then Walked(offsets, quantum).rest >= 0.0 && Gap(offsets) >= 0.0
            else Walked(offsets, quantum).rest <= 0.0 && Gap(offsets) <= 0.0
  {
    var n := |offsets| - 1;
    if n > 0 {
      var front := offsets[..n];
      RestKeepsDirection(front, quantum, up);
      LeftIsBelowOneStep(Walked(front, quantum).rest + (offsets[n] - offsets[n - 1]), quantum);
    }
  }

  /** The remainder is zero or has the sign of the distance. */
  predicate SameSide(rest: real, distance: real) {
    (distance >= 0.0 ==> rest >= 0.0) && (distance <= 0.0 ==> rest <= 0.0)
  }

  /** The steps are the truncated quotient exactly when the remainder is on the side of the distance. */
  lemma StepsAreTruncated(a: Axis, distance: real, quantum: real)
    requires quantum > 0.0 && Conserves(a, quantum, distance)
    ensures a.sent == Steps(distance, quantum) <==> SameSide(a.rest, distance)
  {
    LeftIsBelowOneStep(distance, quantum);
    if SameSide(a.rest, distance) {
      SameRestSameSteps(a.sent, Steps(distance, quantum), a.rest, Left(distance, quantum), quantum);
    }
  }

  lemma AxisTruncates(offsets: seq<real>, quantum: real, up: bool)
    requires offsets != [] && quantum > 0.0 && OneWay(offsets, up)
    ensures Walked(offsets, quantum).sent == Steps(Gap(offsets), quantum)
  {
    AxisConserves(offsets, quantum);
    RestKeepsDirection(offsets, quantum, up);
    OneSideIsSameSide(Walked(offsets, quantum), quantum, Gap(offsets), up);
    StepsAreTruncated(Walked(offsets, quantum), Gap(offsets), quantum);
  }

  lemma OneSideIsSameSide(a: Axis, quantum: real, distance: real, up: bool)
    requires quantum > 0.0 && Conserves(a, quantum, distance)
    requires if up then a.rest >= 0.0 && distance >= 0.0 else a.rest <= 0.0 && distance <= 0.0
    ensures SameSide(a.rest, distance)
  {
    if distance == 0.0 {
      SmallMultipleIsZero(a.sent, quantum, -a.rest);
    }
  }

  // ---- The steps as a function of the path ----

  function Times(steps: int, quantum: real): real { steps as real * quantum }

  /** How far the axis is from where it began, at the i-th offset. */
  function Reach(offsets: seq<real>, i: nat): real
    requires i < |offsets|
  {
    offsets[i] - offsets[0]
  }

  predicate StaysAbove(offsets: seq<real>, i: nat, level: real) {
    forall j | i < j < |offsets| :: Reach(offsets, j) > level
  }

  /** At some point the movement was m steps out or more, and since then it has not come back to m - 1 steps. */
  predicate IsPast(offsets: seq<real>, quantum: real, m: int) {
    exists i | 0 <= i < |offsets| ::
      Reach(offsets, i) >= Times(m, quantum) && StaysAbove(offsets, i, Times(m - 1, quantum))
  }

  lemma TimesIsMonotone(a: int, b: int, q: real)
    requires q > 0.0
    ensures Times(a, q) <= Times(b, q) <==> a <= b
    ensures Times(a, q) < Times(b, q) <==> a < b
  {
    if a <= b {
      TimesAtMost(a as real, b as real, q);
    }
    if a < b {
      Product(b as real - a as real, q);
      Distribute(b as real, a as real, q);
    }
    if b < a {
      Product(a as real - b as real, q);
      Distribute(a as real, b as real, q);
    }
  }

  /** Steps are taken back only when a whole one is to be taken back, and sent only when a whole one is to be sent. */
  lemma MoveThreshold(a: Axis, delta: real, quantum: real, distance: real, m: int)
    requires quantum > 0.0 && Conserves(a, quantum, distance)
    ensures var reach := distance + delta;
            Moved(a, delta, quantum).sent >= m <==>
              reach >= Times(m, quantum) || (a.sent >= m && reach > Times(m - 1, quantum))
  {
    var q, b, reach := quantum, Moved(a, delta, quantum), distance + delta;
    MoveConserves(a, q, distance, delta);
    LeftIsBelowOneStep(a.rest + delta, q);
    StepsHaveSign(a.rest + delta, q);
    Distribute(m as real, 1.0, q);
    ThresholdOf(a.sent, b.sent, b.rest, q, reach, m);
  }

  /** From s to t whole steps at `reach`, taking only whole steps toward it. */
  lemma ThresholdOf(s: int, t: int, rest: real, q: real, reach: real, m: int)
    requires q > 0.0 && Times(t, q) + rest == reach && -q < rest < q
    requires reach - Times(s, q) >= 0.0 ==> t >= s && rest >= 0.0
    requires reach - Times(s, q) <= 0.0 ==> t <= s && rest <= 0.0
    ensures t >= m <==> reach >= Times(m, q) || (s >= m && reach > Times(m - 1, q))
  {
    Distribute(m as real, 1.0, q);
    TimesIsMonotone(t, m, q);
    TimesIsMonotone(m - 1, t, q);
    TimesIsMonotone(m - 1, s, q);
    LinearThreshold(s, t, m, Times(s, q), Times(t, q), Times(m, q), Times(m - 1, q), rest, q, reach);
  }

  lemma LinearThreshold(s: int, t: int, m: int, sq: real, tq: real, mq: real, lq: real, rest: real, q: real,
                        reach: real)
    requires tq + rest == reach && -q < rest < q && lq + q == mq
    requires reach >= sq ==> t >= s && rest >= 0.0
    requires reach <= sq ==> t <= s && rest <= 0.0
    requires (tq < mq <==> t < m) && (lq < tq <==> m - 1 < t) && (lq <= sq <==> m - 1 <= s)
    ensures t >= m <==> reach >= mq || (s >= m && reach > lq)
  {
  }

  lemma StepsHaveSign(remainder: real, quantum: real)
    requires quantum > 0.0
    ensures remainder >= 0.0 ==> Steps(remainder, quantum) >= 0
    ensures remainder <= 0.0 ==> Steps(remainder, quantum) <= 0
  {
    SameSign(remainder, quantum);
  }

  lemma OneMorePast(offsets: seq<real>, quantum: real, m: int, n: nat)
    requires 0 < n == |offsets| - 1 && quantum > 0.0
    ensures IsPast(offsets, quantum, m) <==>
              || Reach(offsets, n) >= Times(m, quantum)
              || (IsPast(offsets[..n], quantum, m) && Reach(offsets, n) > Times(m - 1, quantum))
  {
    var front, level := offsets[..n], Times(m - 1, quantum);
    assert forall j: nat | j < n :: Reach(offsets, j) == Reach(front, j);
    if Reach(offsets, n) >= Times(m, quantum) {
      assert StaysAbove(offsets, n, level);
    }
    if i :| 0 <= i < n && Reach(front, i) >= Times(m, quantum) && StaysAbove(front, i, level)
            && Reach(offsets, n) > level {
      assert forall j | i < j < |offsets| :: j < n ==> Reach(front, j) > level;
      assert StaysAbove(offsets, i, level);
    }
    if i :| 0 <= i < |offsets| && Reach(offsets, i) >= Times(m, quantum) && StaysAbove(offsets, i, level) {
      if i < n { assert StaysAbove(front, i, level); }
    }
  }

  /** The steps sent in all, for every way to move and every m: at least m exactly when the movement is past m. */
  lemma {:induction false} SentExactlyWhenPast(offsets: seq<real>, quantum: real, m: int)
    requires offsets != [] && quantum > 0.0
    ensures Walked(offsets, quantum).sent >= m <==> IsPast(offsets, quantum, m)
  {
    var n := |offsets| - 1;
    if n == 0 {
      TimesIsMonotone(m, 0, quantum);
      assert Reach(offsets, 0) == 0.0;
      assert StaysAbove(offsets, 0, Times(m - 1, quantum));
    } else {
      var front := offsets[..n];
      SentExactlyWhenPast(front, quantum, m);
      AxisConserves(front, quantum);
      MoveThreshold(Walked(front, quantum), offsets[n] - offsets[n - 1], quantum, Gap(front), m);
      OneMorePast(offsets, quantum, m, n);
    }
  }

  /** The steps sent are the truncated distance exactly when the movement did not go past the next whole step away
      from the start, or has since come all the way back to the whole step before that. */
  lemma TruncatedExactlyWhenNotPast(offsets: seq<real>, quantum: real)
    requires offsets != [] && quantum > 0.0
    ensures var k := Steps(Gap(offsets), quantum);
            && (Walked(offsets, quantum).sent == k <==>
                  IsPast(offsets, quantum, k) && !IsPast(offsets, quantum, k + 1))
            && (Walked(offsets, quantum).sent == k <==> SameSide(Walked(offsets, quantum).rest, Gap(offsets)))
  {
    var k := Steps(Gap(offsets), quantum);
    SentExactlyWhenPast(offsets, quantum, k);
    SentExactlyWhenPast(offsets, quantum, k + 1);
    AxisConserves(offsets, quantum);
    StepsAreTruncated(Walked(offsets, quantum), Gap(offsets), quantum);
  }

  // ---- Deltas given to the axis policy directly ----

  datatype Update = Update(quantum: real, deltaX: real, deltaY: real)

  /** Updates from the source the policy already has. */
  function AxesAfter(a: Axes, updates: seq<Update>): (after: Axes)
    requires a.quantum > 0.0
    ensures after.quantum > 0.0
  {
    if updates == [] then a
    else
      var u := updates[|updates| - 1];
      AxesUpdated(AxesAfter(a, updates[..|updates| - 1]), a.source, u.quantum, u.deltaX, u.deltaY)
  }

  function TakenBy(a: Axes, updates: seq<Update>): StepPair
    requires a.quantum > 0.0
  {
    if updates == [] then StepPair(0, 0)
    else
      var front, u := updates[..|updates| - 1], updates[|updates| - 1];
      var more := StepsTaken(AxesAfter(a, front), a.source, u.quantum, u.deltaX, u.deltaY);
      StepPair(TakenBy(a, front).horizontal + more.horizontal, TakenBy(a, front).vertical + more.vertical)
  }

  function Delta(u: Update, vertical: bool): real { if vertical then u.deltaY else u.deltaX }

  function Remainder(a: Axes, vertical: bool): real { if vertical then a.remainderY else a.remainderX }

  function DeltaSum(updates: seq<Update>, vertical: bool): real {
    if updates == [] then 0.0
    else DeltaSum(updates[..|updates| - 1], vertical) + Delta(updates[|updates| - 1], vertical)
  }

  predicate KeepsQuantum(a: Axes, updates: seq<Update>) {
    forall i | 0 <= i < |updates| :: Distance(a.quantum, Safe(updates[i].quantum)) <= 0.001
  }

  function AxisAfter(a: Axes, updates: seq<Update>, vertical: bool): Axis
    requires a.quantum > 0.0
  {
    var taken := TakenBy(a, updates);
    Axis(if vertical then taken.vertical else taken.horizontal, Remainder(AxesAfter(a, updates), vertical))
  }

  /** From any state of the policy, as long as source and quantum stay: on each axis the steps times the quantum plus
      the remainder are the remainder before plus all deltas, and the remainder stays below one step. */
  lemma {:induction false} DeltasAreConserved(a: Axes, updates: seq<Update>, vertical: bool)
    requires a.quantum > 0.0 && KeepsQuantum(a, updates) && -a.quantum < Remainder(a, vertical) < a.quantum
    ensures AxesAfter(a, updates).quantum == a.quantum && AxesAfter(a, updates).source == a.source
    ensures Conserves(AxisAfter(a, updates, vertical), a.quantum, Remainder(a, vertical) + DeltaSum(updates, vertical))
  {
    var n := |updates| - 1;
    if updates != [] {
      var front, u := updates[..n], updates[n];
      DeltasAreConserved(a, front, vertical);
      var distance := Remainder(a, vertical) + DeltaSum(front, vertical);
      assert Ready(AxesAfter(a, front), a.source, u.quantum) == AxesAfter(a, front);
      assert AxisAfter(a, updates, vertical) == Moved(AxisAfter(a, front, vertical), Delta(u, vertical), a.quantum);
      MoveConserves(AxisAfter(a, front, vertical), a.quantum, distance, Delta(u, vertical));
    }
  }

  // ---- Gestures ----

  /** The policy after beginning with the first touch and updating with the others. */
  function After(touches: seq<Touch>): (s: Scroll)
    requires touches != []
    ensures s.active && s.axes.quantum > 0.0
    ensures s.lastX == touches[|touches| - 1].offsetX && s.lastY == touches[|touches| - 1].offsetY
  {
    if |touches| == 1 then ScrollBegun(touches[0])
    else ScrollUpdated(After(touches[..|touches| - 1]), touches[|touches| - 1])
  }

  /** The wheel steps sent during the gesture. */
  function Total(touches: seq<Touch>): StepPair
    requires touches != []
  {
    if |touches| == 1 then StepPair(0, 0)
    else
      var front, t := touches[..|touches| - 1], touches[|touches| - 1];
      var more := ScrollSteps(After(front), t);
      StepPair(Total(front).horizontal + more.horizontal, Total(front).vertical + more.vertical)
  }

  function Offsets(touches: seq<Touch>, vertical: bool): (offsets: seq<real>)
    ensures |offsets| == |touches|
  {
    seq(|touches|, i requires 0 <= i < |touches| => if vertical then touches[i].offsetY else touches[i].offsetX)
  }

  /** The quantum a touch asks for: a positive one, or 1. */
  function Asked(t: Touch): (q: real)
    ensures q > 0.0
  {
    if t.quantum > 0.0 then t.quantum else 1.0
  }

  /** The quantum stays within a thousandth of the one the gesture began with. */
  predicate SteadyQuantum(touches: seq<Touch>) {
    forall i | 0 <= i < |touches| :: -0.001 <= Asked(touches[i]) - Asked(touches[0]) <= 0.001
  }

  /** One axis of the gesture so far. */
  function OnAxis(touches: seq<Touch>, vertical: bool): Axis
    requires touches != []
  {
    var total, a := Total(touches), After(touches).axes;
    if vertical then Axis(total.vertical, a.remainderY) else Axis(total.horizontal, a.remainderX)
  }

  /** The policy runs the two axes independently, with the quantum the gesture began with. */
  lemma {:induction false} AxesAreIndependent(touches: seq<Touch>)
    requires touches != [] && SteadyQuantum(touches)
    ensures var q, a := Asked(touches[0]), After(touches).axes;
            && a.quantum == q && a.source == SYSTEM_SOURCE
            && OnAxis(touches, false) == Walked(Offsets(touches, false), q)
            && OnAxis(touches, true) == Walked(Offsets(touches, true), q)
  {
    var n := |touches| - 1;
    if n == 0 {
      assert Offsets(touches, false) == [touches[0].offsetX] && Offsets(touches, true) == [touches[0].offsetY];
    } else {
      var front := touches[..n];
      AxesAreIndependent(front);
      OneMoreTouch(touches, front, n);
    }
  }

  lemma StaysReady(a: Axes, t: Touch, q: real)
    requires a.quantum == q && a.source == SYSTEM_SOURCE && -0.001 <= Asked(t) - q <= 0.001
    ensures Ready(a, SYSTEM_SOURCE, t.quantum) == a
  {
  }

  lemma OneMoreTouch(touches: seq<Touch>, front: seq<Touch>, n: nat)
    requires 0 < n == |touches| - 1 && front == touches[..n] && SteadyQuantum(touches)
    requires After(front).axes.quantum == Asked(touches[0]) && After(front).axes.source == SYSTEM_SOURCE
    requires OnAxis(front, false) == Walked(Offsets(front, false), Asked(touches[0]))
    requires OnAxis(front, true) == Walked(Offsets(front, true), Asked(touches[0]))
    ensures var q, a := Asked(touches[0]), After(touches).axes;
            && a.quantum == q && a.source == SYSTEM_SOURCE
            && OnAxis(touches, false) == Walked(Offsets(touches, false), q)
            && OnAxis(touches, true) == Walked(Offsets(touches, true), q)
  {
    var q := Asked(touches[0]);
    var dx, dy := touches[n].offsetX - touches[n - 1].offsetX, touches[n].offsetY - touches[n - 1].offsetY;
    assert -0.001 <= Asked(touches[n]) - q <= 0.001;
    StaysReady(After(front).axes, touches[n], q);
    UpdateMovesBothAxes(touches, front, n, q, dx, dy);
    OffsetsStep(touches, front, n, false, q, dx);
    OffsetsStep(touches, front, n, true, q, dy);
  }

  lemma UpdateMovesBothAxes(touches: seq<Touch>, front: seq<Touch>, n: nat, q: real, dx: real, dy: real)
    requires 0 < n == |touches| - 1 && front == touches[..n] && q > 0.0
    requires dx == touches[n].offsetX - touches[n - 1].offsetX && dy == touches[n].offsetY - touches[n - 1].offsetY
    requires Ready(After(front).axes, SYSTEM_SOURCE, touches[n].quantum) == After(front).axes
    requires After(front).axes.quantum == q
    ensures After(touches).axes.quantum == q && After(touches).axes.source == After(front).axes.source
    ensures OnAxis(touches, false) == Moved(OnAxis(front, false), dx, q)
    ensures OnAxis(touches, true) == Moved(OnAxis(front, true), dy, q)
  {
    assert After(touches) == ScrollUpdated(After(front), touches[n]);
    assert front[|front| - 1] == touches[n - 1];
  }

  function Offset(t: Touch, vertical: bool): real { if vertical then t.offsetY else t.offsetX }

  lemma OffsetsStep(touches: seq<Touch>, front: seq<Touch>, n: nat, vertical: bool, q: real, delta: real)
    requires 0 < n == |touches| - 1 && front == touches[..n] && q > 0.0
    requires delta == Offset(touches[n], vertical) - Offset(touches[n - 1], vertical)
    ensures Walked(Offsets(touches, vertical), q) == Moved(Walked(Offsets(front, vertical), q), delta, q)
  {
    var offsets := Offsets(touches, vertical);
    assert offsets[..n] == Offsets(front, vertical) && offsets[n] - offsets[n - 1] == delta;
  }

  /** The first touch sends nothing and begins a gesture: it is where the movement is measured from. */
  lemma FirstTouchOnlyBegins(s: Scroll, t: Touch)
    requires !s.active && s.axes.quantum > 0.0
    ensures WheelEvents(ScrollSteps(s, t)) == [] && ScrollUpdated(s, t) == After([t])
    ensures var begun := ScrollUpdated(s, t);
            && begun.active && begun.lastX == t.offsetX && begun.lastY == t.offsetY
            && begun.axes == Axes(2, Asked(t), 0.0, 0.0)
  {
  }

  /** The wheel events sent during the gesture, in order. */
  function Events(touches: seq<Touch>): seq<Wheel>
    requires touches != []
  {
    if |touches| == 1 then []
    else
      var front, t := touches[..|touches| - 1], touches[|touches| - 1];
      Events(front) + WheelEvents(ScrollSteps(After(front), t))
  }

  /** The steps of the events of one axis. */
  function SumOf(events: seq<Wheel>, vertical: bool): int {
    if events == [] then 0
    else
      var n := |events| - 1;
      SumOf(events[..n], vertical) + if events[n].Vertical? == vertical then events[n].steps else 0
  }

  lemma {:induction false} SumOfBoth(events: seq<Wheel>, more: seq<Wheel>, vertical: bool)
    ensures SumOf(events + more, vertical) == SumOf(events, vertical) + SumOf(more, vertical)
  {
    if more == [] {
      assert events + more == events;
    } else {
      var n := |more| - 1;
      SumOfBoth(events, more[..n], vertical);
      assert (events + more)[..|events| + n] == events + more[..n];
    }
  }

  lemma EventsOfOneUpdate(taken: StepPair, vertical: bool)
    ensures SumOf(WheelEvents(taken), vertical) == if vertical then taken.vertical else taken.horizontal
  {
    var v: seq<Wheel> := if taken.vertical != 0 then [Vertical(taken.vertical)] else [];
    var h: seq<Wheel> := if taken.horizontal != 0 then [Horizontal(taken.horizontal)] else [];
    SumOfBoth(v, h, vertical);
    SumOfOne(Vertical(taken.vertical), vertical);
    SumOfOne(Horizontal(taken.horizontal), vertical);
  }

  lemma SumOfOne(event: Wheel, vertical: bool)
    ensures SumOf([event], vertical) == if event.Vertical? == vertical then event.steps else 0
  {
    assert [event][..0] == [];
  }

  lemma {:induction false} EventsAddUp(touches: seq<Touch>, vertical: bool)
    requires touches != []
    ensures SumOf(Events(touches), vertical) == OnAxis(touches, vertical).sent
  {
    if |touches| > 1 {
      var front, t := touches[..|touches| - 1], touches[|touches| - 1];
      EventsAddUp(front, vertical);
      SumOfBoth(Events(front), WheelEvents(ScrollSteps(After(front), t)), vertical);
      EventsOfOneUpdate(ScrollSteps(After(front), t), vertical);
    }
  }

  lemma AxisMovementIsConserved(touches: seq<Touch>, vertical: bool)
    requires touches != [] && SteadyQuantum(touches)
    ensures Conserves(OnAxis(touches, vertical), Asked(touches[0]), Gap(Offsets(touches, vertical)))
  {
    AxesAreIndependent(touches);
    AxisConserves(Offsets(touches, vertical), Asked(touches[0]));
  }

  /** Within one gesture nothing of the movement is lost: on each axis the steps of all wheel events of that axis,
      times the quantum the gesture began with, plus the remainder are the distance from the first offset to the
      last, and the remainder is below one step. */
  lemma MovementIsConserved(touches: seq<Touch>, vertical: bool)
    requires touches != [] && SteadyQuantum(touches)
    ensures Conserves(Axis(SumOf(Events(touches), vertical), Remainder(After(touches).axes, vertical)),
                      Asked(touches[0]),
                      Offset(touches[|touches| - 1], vertical) - Offset(touches[0], vertical))
  {
    AxisMovementIsConserved(touches, vertical);
    EventsAddUp(touches, vertical);
    assert OnAxis(touches, vertical)
        == Axis(SumOf(Events(touches), vertical), Remainder(After(touches).axes, vertical));
    GapOfOffsets(touches, vertical);
  }

  lemma GapOfOffsets(touches: seq<Touch>, vertical: bool)
    requires touches != []
    ensures Gap(Offsets(touches, vertical))
         == Offset(touches[|touches| - 1], vertical) - Offset(touches[0], vertical)
  {
  }

  /** Moving in a single direction, the steps sent are the truncated distance in quanta, however the movement is
      chopped into updates. */
  lemma StepsDependOnDistanceOnly(touches: seq<Touch>, vertical: bool, up: bool)
    requires touches != [] && SteadyQuantum(touches) && OneWay(Offsets(touches, vertical), up)
    ensures OnAxis(touches, vertical).sent == Steps(Gap(Offsets(touches, vertical)), Asked(touches[0]))
  {
    AxesAreIndependent(touches);
    AxisTruncates(Offsets(touches, vertical), Asked(touches[0]), up);
  }

  /** For any movement they are the truncated distance exactly when it did not go past the next whole step away from
      its start, or has since come all the way back; equivalently, when the remainder is on the distance's side. */
  lemma StepsAreTheDistanceExactlyWhen(touches: seq<Touch>, vertical: bool)
    requires touches != [] && SteadyQuantum(touches)
    ensures var q, offsets, axis := Asked(touches[0]), Offsets(touches, vertical), OnAxis(touches, vertical);
            var k := Steps(Gap(offsets), q);
            && (axis.sent == k <==> IsPast(offsets, q, k) && !IsPast(offsets, q, k + 1))
            && (axis.sent == k <==> SameSide(axis.rest, Gap(offsets)))
  {
    AxesAreIndependent(touches);
    TruncatedExactlyWhenNotPast(Offsets(touches, vertical), Asked(touches[0]));
  }

  /** With a change of direction the chopping does matter: going past a step and back sends a step that the direct
      way does not send. */
  lemma ReversalCanCost()
    ensures Walked([0.0, 1.5, 0.6], 1.0).sent == 1 && Walked([0.0, 0.6], 1.0).sent == 0
  {
    var chopped, direct := [0.0, 1.5, 0.6], [0.0, 0.6];
    assert direct[..1] == [0.0] && chopped[..2] == [0.0, 1.5] && chopped[..2][..1] == [0.0];
    assert Steps(0.6, 1.0) == 0 && Steps(1.5, 1.0) == 1 && Left(1.5, 1.0) == 0.5;
    assert Steps(-0.4, 1.0) == 0;
  }
}
