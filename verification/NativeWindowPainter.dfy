/** The CPU painter (surface/native_window_rgba_painter.cpp): it remembers which frame each window buffer
    holds and repaints only the accumulated dirty box when an unbroken chain of history allows it. */
module NativeWindowPainter {
  import opened FrameUtils
  import opened NativeRgbaCopy
  import opened LatestFrameRenderer

  const MAX_PARTIAL_DIRTY_AREA_PERMILLE: nat := 650
  const DIRTY_HISTORY_LIMIT: nat := 240

  datatype Option<T> = None | Some(value: T)

  datatype HistoryEntry = HistoryEntry(fromSequence: nat, toSequence: nat, dirty: DirtyFrameStats)

  datatype PainterState = PainterState(bufferSequences: map<nat, nat>, history: seq<HistoryEntry>,
                                       width: U32, height: U32)

  const EMPTY_PAINTER := PainterState(map[], [], 0, 0)

  /** Where the walk over the history stands: the next sequence it needs and the box so far. */
  datatype Chain = Chain(expected: nat, dirty: DirtyFrameStats)

  function Walk(history: seq<HistoryEntry>, last: nat, chain: Chain, width: U32, height: U32): Option<Chain> {
    if history == [] then Some(chain)
    else if history[0].toSequence <= last then Walk(history[1..], last, chain, width, height)
    else if history[0].fromSequence > chain.expected then None
    else Walk(history[1..], last,
              Chain(history[0].toSequence + 1, MergeDirtyStats(chain.dirty, history[0].dirty, width, height)),
              width, height)
  }

  predicate FillsArea(frame: PendingFrame, areaWidth: U32, areaHeight: U32, viewport: RenderViewport) {
    && frame.width == areaWidth && frame.height == areaHeight
    && viewport == RenderViewport(0, 0, frame.width, frame.height)
  }

  /** The accumulated box passes the last checks; the sums are 32-bit. */
  predicate BoxIsUsable(dirty: DirtyFrameStats, areaWidth: U32, areaHeight: U32) {
    && dirty.valid && dirty.width != 0 && dirty.height != 0
    && (dirty.x + dirty.width) % U32_LIMIT <= areaWidth
    && (dirty.y + dirty.height) % U32_LIMIT <= areaHeight
    && dirty.areaPermille <= MAX_PARTIAL_DIRTY_AREA_PERMILLE
  }

  /** The box a partial repaint may use, or None when the buffer needs a full one. */
  function PartialDirty(s: PainterState, bufferKey: nat, frame: PendingFrame, areaWidth: U32, areaHeight: U32,
                        viewport: RenderViewport): Option<DirtyFrameStats>
  {
    if bufferKey == 0 || frame.sequence == 0 || frame.dirtySequenceStart == 0 || !frame.dirty.valid then None
    else if !FillsArea(frame, areaWidth, areaHeight, viewport) then None
    else if s.width != frame.width || s.height != frame.height then None
    else if bufferKey !in s.bufferSequences || s.bufferSequences[bufferKey] >= frame.sequence then None
    else
      var last := s.bufferSequences[bufferKey];
      match Walk(s.history, last, Chain(last + 1, NO_DIRTY), frame.width, frame.height)
      case None => None
      case Some(chain) =>
        if frame.dirtySequenceStart > chain.expected then None
        else
          var all := MergeDirtyStats(chain.dirty, frame.dirty, frame.width, frame.height);
          if BoxIsUsable(all, areaWidth, areaHeight) then Some(all) else None
  }

  /** The newest entries, at most the limit. */
  function Trimmed(history: seq<HistoryEntry>): seq<HistoryEntry> {
    if |history| > DIRTY_HISTORY_LIMIT then history[|history| - DIRTY_HISTORY_LIMIT..] else history
  }

  function Recorded(s: PainterState, bufferKey: nat, frame: PendingFrame): PainterState {
    if frame.sequence == 0 then s
    else
      var cleared := if s.width != frame.width || s.height != frame.height
                     then PainterState(map[], [], frame.width, frame.height) else s;
      var from := if frame.dirtySequenceStart == 0 then frame.sequence else frame.dirtySequenceStart;
      cleared.(history := Trimmed(cleared.history + [HistoryEntry(from, frame.sequence, frame.dirty)]),
               bufferSequences := if bufferKey != 0 then cleared.bufferSequences[bufferKey := frame.sequence]
                                  else cleared.bufferSequences)
  }

  // ---- What a buffer shows ----

  /** The full repaint of a frame: letterbox bars and the sampled content. */
  function FullPicture(frame: PendingFrame, areaWidth: U32, areaHeight: U32): Picture
    requires 0 < frame.width && 0 < frame.height
  {
    var v := FitFrameIntoTarget(areaWidth, areaHeight, frame.width, frame.height);
    (x: nat, y: nat) =>
      if v.x <= x < v.x + v.width && v.y <= y < v.y + v.height then
        frame.pixels(Sample(x - v.x, frame.width, v.width), Sample(y - v.y, frame.height, v.height))
      else LETTERBOX
  }

  /** A repaint of one box over what the buffer showed before. */
  function PartialPicture(frame: PendingFrame, dirty: DirtyFrameStats, before: Picture): Picture {
    (x: nat, y: nat) => if Covers(dirty, x, y) then frame.pixels(x, y) else before(x, y)
  }

  ghost predicate SamePicture(a: Picture, b: Picture, width: nat, height: nat) {
    forall x: nat, y: nat | x < width && y < height :: a(x, y) == b(x, y)
  }

  ghost predicate Shows(buffer: array2<Byte>, format: PixelFormat, width: nat, height: nat, picture: Picture)
    requires FitsBuffer(buffer, width, height)
    reads buffer
  {
    forall i: nat, j: nat | i < height && j < 4 * width ::
      buffer[i, j] == Component(picture(j / 4, i), Channel(format, j % 4))
  }

  /** Inside the fitted rectangle the full repaint shows, at every content pixel, the frame pixel it falls on;
      around it opaque black. */
  lemma FullPictureIsScaledFrame(frame: PendingFrame, areaWidth: U32, areaHeight: U32, x: nat, y: nat, sx: nat, sy: nat)
    requires 0 < frame.width && 0 < frame.height
    ensures var v := FitFrameIntoTarget(areaWidth, areaHeight, frame.width, frame.height);
            var shown := FullPicture(frame, areaWidth, areaHeight)(x, y);
            if v.x <= x < v.x + v.width && v.y <= y < v.y + v.height then
              FallsOn(sx, x - v.x, frame.width, v.width) && FallsOn(sy, y - v.y, frame.height, v.height) ==>
                shown == frame.pixels(sx, sy)
            else shown == Pixel(0, 0, 0, 255)
  {
    var v := FitFrameIntoTarget(areaWidth, areaHeight, frame.width, frame.height);
    if v.x <= x < v.x + v.width && v.y <= y < v.y + v.height {
      FallsOnOnlyOne(sx, x - v.x, frame.width, v.width);
      FallsOnOnlyOne(sy, y - v.y, frame.height, v.height);
    }
  }

  // ---- What is recorded ----

  /** The history keeps the newest 240 entries, in order. */
  lemma TrimmedIsTheNewest(history: seq<HistoryEntry>)
    ensures var kept := Trimmed(history);
            && |kept| == (if |history| < 240 then |history| else 240)
            && kept == history[|history| - |kept|..]
  {
  }

  /** A sequenced frame flushed into a buffer is remembered for that buffer, and its interval and box end the history.
      With a frame of another size nothing else is remembered; with one of the same size everything is. */
  lemma RecordedIsRemembered(s: PainterState, bufferKey: nat, frame: PendingFrame)
    requires bufferKey != 0 && frame.sequence != 0 && frame.dirtySequenceStart != 0
    ensures var t := Recorded(s, bufferKey, frame);
            var same := s.width == frame.width && s.height == frame.height;
            && t.width == frame.width && t.height == frame.height
            && bufferKey in t.bufferSequences && t.bufferSequences[bufferKey] == frame.sequence
            && (forall key: nat | key != bufferKey ::
                  if same && key in s.bufferSequences
                  then key in t.bufferSequences && t.bufferSequences[key] == s.bufferSequences[key]
                  else key !in t.bufferSequences)
            && t.history == Trimmed((if same then s.history else []) +
                                    [HistoryEntry(frame.dirtySequenceStart, frame.sequence, frame.dirty)])
  {
  }

  // ---- Exactly when a partial repaint is used ----

  /** Intervals in order, none overlapping. */
  predicate Ordered(history: seq<HistoryEntry>) {
    && (forall i | 0 <= i < |history| :: history[i].fromSequence <= history[i].toSequence)
    && (forall i, j | 0 <= i < j < |history| :: history[i].toSequence < history[j].fromSequence)
  }

  predicate EndsBefore(history: seq<HistoryEntry>, start: nat) {
    forall i | 0 <= i < |history| :: history[i].toSequence < start
  }

  predicate IsInHistory(history: seq<HistoryEntry>, m: nat) {
    exists i | 0 <= i < |history| :: history[i].fromSequence <= m <= history[i].toSequence
  }

  /** Every sequence from `from` up to `start` is in some entry. */
  predicate Unbroken(history: seq<HistoryEntry>, from: nat, start: nat) {
    forall m: nat | from <= m < start :: IsInHistory(history, m)
  }

  /** The boxes of the entries that end after the given sequence. */
  function LaterBoxes(history: seq<HistoryEntry>, last: nat): seq<DirtyFrameStats> {
    if history == [] then []
    else if history[0].toSequence <= last then LaterBoxes(history[1..], last)
    else [history[0].dirty] + LaterBoxes(history[1..], last)
  }

  lemma Regroup(before: seq<DirtyFrameStats>, box: DirtyFrameStats, later: seq<DirtyFrameStats>)
    ensures before + [box] + later == before + ([box] + later)
    ensures before + [] == before
  {
  }

  lemma UnbrokenWithoutHead(history: seq<HistoryEntry>, from: nat, from': nat, start: nat)
    requires history != [] && from <= from' <= start
    requires history[0].toSequence < from'
    requires from == from' || (history[0].fromSequence <= from && from' == history[0].toSequence + 1)
    ensures Unbroken(history, from, start) <==> Unbroken(history[1..], from', start)
  {
    var rest := history[1..];
    if Unbroken(history, from, start) {
      forall m: nat | from' <= m < start ensures IsInHistory(rest, m) {
        assert IsInHistory(history, m);
        var i :| 0 <= i < |history| && history[i].fromSequence <= m <= history[i].toSequence;
        assert rest[i - 1] == history[i];
      }
    }
    if Unbroken(rest, from', start) {
      forall m: nat | from <= m < start ensures IsInHistory(history, m) {
        if m >= from' {
          assert IsInHistory(rest, m);
          var i :| 0 <= i < |rest| && rest[i].fromSequence <= m <= rest[i].toSequence;
          assert history[i + 1] == rest[i];
        }
      }
    }
  }

  lemma TailIsOrdered(history: seq<HistoryEntry>, start: nat)
    requires history != [] && Ordered(history) && EndsBefore(history, start)
    ensures Ordered(history[1..]) && EndsBefore(history[1..], start)
    ensures history[1..] != [] ==> history[0].toSequence < history[1..][0].fromSequence
  {
  }

  lemma {:induction false} WalkExactlyWhen(history: seq<HistoryEntry>, last: nat, chain: Chain, width: U32, height: U32,
                                           start: nat)
    requires Ordered(history) && EndsBefore(history, start) && last < chain.expected <= start
    requires chain.expected == last + 1 || (history != [] ==> chain.expected <= history[0].fromSequence)
    ensures var r := Walk(history, last, chain, width, height);
            r.Some? && start <= r.value.expected <==> Unbroken(history, chain.expected, start)
  {
    if history == [] {
      assert !IsInHistory(history, chain.expected);
    } else {
      var head, rest := history[0], history[1..];
      TailIsOrdered(history, start);
      if head.toSequence <= last {
        UnbrokenWithoutHead(history, chain.expected, chain.expected, start);
        WalkExactlyWhen(rest, last, chain, width, height, start);
      } else if head.fromSequence <= chain.expected {
        var merged := MergeDirtyStats(chain.dirty, head.dirty, width, height);
        UnbrokenWithoutHead(history, chain.expected, head.toSequence + 1, start);
        WalkExactlyWhen(rest, last, Chain(head.toSequence + 1, merged), width, height, start);
      } else {
        assert forall i | 0 <= i < |history| :: chain.expected < history[i].fromSequence;
        assert !IsInHistory(history, chain.expected);
      }
    }
  }

  lemma MergeOneMore(boxes: seq<DirtyFrameStats>, box: DirtyFrameStats, width: U32, height: U32)
    ensures MergeAll(boxes + [box], width, height) ==
            MergeDirtyStats(MergeAll(boxes, width, height), box, width, height)
  {
    assert (boxes + [box])[..|boxes|] == boxes;
  }

  /** The walk over one more entry that continues the chain. */
  lemma WalkOn(history: seq<HistoryEntry>, last: nat, chain: Chain, width: U32, height: U32,
               before: seq<DirtyFrameStats>) returns (next: Chain)
    requires history != [] && last < history[0].toSequence && history[0].fromSequence <= chain.expected
    requires chain.dirty == MergeAll(before, width, height)
    ensures next.dirty == MergeAll(before + [history[0].dirty], width, height)
    ensures Walk(history, last, chain, width, height) == Walk(history[1..], last, next, width, height)
  {
    MergeOneMore(before, history[0].dirty, width, height);
    next := Chain(history[0].toSequence + 1, MergeDirtyStats(chain.dirty, history[0].dirty, width, height));
  }

  lemma {:induction false} WalkMerges(history: seq<HistoryEntry>, last: nat, chain: Chain, width: U32, height: U32,
                                      before: seq<DirtyFrameStats>)
    requires chain.dirty == MergeAll(before, width, height)
    ensures var r := Walk(history, last, chain, width, height);
            r.Some? ==> r.value.dirty == MergeAll(before + LaterBoxes(history, last), width, height)
  {
    if history == [] {
      Regroup(before, NO_DIRTY, []);
    } else if history[0].toSequence <= last {
      WalkMerges(history[1..], last, chain, width, height, before);
    } else if history[0].fromSequence <= chain.expected {
      var next := WalkOn(history, last, chain, width, height, before);
      WalkMerges(history[1..], last, next, width, height, before + [history[0].dirty]);
      Regroup(before, history[0].dirty, LaterBoxes(history[1..], last));
    }
  }

  /** What makes a frame and a buffer candidates for a partial repaint. */
  predicate IsCandidate(s: PainterState, bufferKey: nat, frame: PendingFrame, areaWidth: U32, areaHeight: U32) {
    && bufferKey != 0 && frame.sequence != 0 && frame.dirtySequenceStart != 0 && frame.dirty.valid
    && frame.width == areaWidth == s.width && frame.height == areaHeight == s.height
    && bufferKey in s.bufferSequences && s.bufferSequences[bufferKey] < frame.sequence
  }

  predicate IsSmallInside(box: DirtyFrameStats, areaWidth: U32, areaHeight: U32) {
    InFrame(box, areaWidth, areaHeight) && box.areaPermille <= 650
  }

  /** A candidate is repainted partially exactly when the history knows every sequence between what the buffer holds
      and the frame, and the merged box of what changed since is inside the area and at most 650 permille of it;
      and that box is then the one repainted. */
  lemma PartialExactlyWhen(s: PainterState, bufferKey: nat, frame: PendingFrame, areaWidth: U32, areaHeight: U32)
    requires 0 < areaWidth && 0 < areaHeight && Ordered(s.history) && EndsBefore(s.history, frame.dirtySequenceStart)
    requires NoWrap(frame.dirty) && forall i | 0 <= i < |s.history| :: NoWrap(s.history[i].dirty)
    requires bufferKey in s.bufferSequences ==> s.bufferSequences[bufferKey] < frame.dirtySequenceStart
    ensures var viewport := FitFrameIntoTarget(areaWidth, areaHeight, frame.width, frame.height);
            var r := PartialDirty(s, bufferKey, frame, areaWidth, areaHeight, viewport);
            if !IsCandidate(s, bufferKey, frame, areaWidth, areaHeight) then r.None?
            else
              var last := s.bufferSequences[bufferKey];
              var box := MergeAll(LaterBoxes(s.history, last) + [frame.dirty], areaWidth, areaHeight);
              && (r.Some? <==> Unbroken(s.history, last + 1, frame.dirtySequenceStart)
                               && IsSmallInside(box, areaWidth, areaHeight))
              && (r.Some? ==> r.value == box)
  {
    var viewport := FitFrameIntoTarget(areaWidth, areaHeight, frame.width, frame.height);
    if IsCandidate(s, bufferKey, frame, areaWidth, areaHeight) {
      RemoteContentGeometry.EqualSizesAreOneToOne(areaWidth, areaHeight);
      var last := s.bufferSequences[bufferKey];
      var first := Chain(last + 1, NO_DIRTY);
      WalkExactlyWhen(s.history, last, first, frame.width, frame.height, frame.dirtySequenceStart);
      WalkMerges(s.history, last, first, frame.width, frame.height, []);
      assert [] + LaterBoxes(s.history, last) == LaterBoxes(s.history, last);
      MergeOneMore(LaterBoxes(s.history, last), frame.dirty, frame.width, frame.height);
      WalkKeepsNoWrap(s.history, last, first, frame.width, frame.height);
      UsableIsSmallInside(MergeAll(LaterBoxes(s.history, last) + [frame.dirty], areaWidth, areaHeight),
                          areaWidth, areaHeight);
    }
  }

  lemma UsableIsSmallInside(box: DirtyFrameStats, areaWidth: U32, areaHeight: U32)
    ensures NoWrap(box) ==> (BoxIsUsable(box, areaWidth, areaHeight) <==> IsSmallInside(box, areaWidth, areaHeight))
  {
  }

  /** No box wraps around 32 bits; the capture from the invalid regions only makes such boxes. */
  predicate NoWrap(dirty: DirtyFrameStats) {
    dirty.x + dirty.width < U32_LIMIT && dirty.y + dirty.height < U32_LIMIT
  }

  lemma {:induction false} WalkKeepsNoWrap(history: seq<HistoryEntry>, last: nat, chain: Chain, width: U32, height: U32)
    requires NoWrap(chain.dirty) && forall i | 0 <= i < |history| :: NoWrap(history[i].dirty)
    ensures var r := Walk(history, last, chain, width, height); r.Some? ==> NoWrap(r.value.dirty)
  {
    if history != [] {
      if history[0].toSequence <= last {
        WalkKeepsNoWrap(history[1..], last, chain, width, height);
      } else if history[0].fromSequence <= chain.expected {
        var merged := MergeDirtyStats(chain.dirty, history[0].dirty, width, height);
        assert NoWrap(merged);
        WalkKeepsNoWrap(history[1..], last, Chain(history[0].toSequence + 1, merged), width, height);
      }
    }
  }

  /** The box of a partial repaint lies inside the painted area. */
  lemma PartialDirtyIsInArea(s: PainterState, bufferKey: nat, frame: PendingFrame, areaWidth: U32, areaHeight: U32,
                             viewport: RenderViewport)
    requires NoWrap(frame.dirty) && forall i | 0 <= i < |s.history| :: NoWrap(s.history[i].dirty)
    ensures var r := PartialDirty(s, bufferKey, frame, areaWidth, areaHeight, viewport);
            r.Some? ==> InFrame(r.value, areaWidth, areaHeight)
  {
    if PartialDirty(s, bufferKey, frame, areaWidth, areaHeight, viewport).Some? {
      var last := s.bufferSequences[bufferKey];
      WalkKeepsNoWrap(s.history, last, Chain(last + 1, NO_DIRTY), frame.width, frame.height);
    }
  }

  /** Writing one box of the frame turns what the buffer showed into the partial picture. */
  method PaintPartial(target: array2<Byte>, format: PixelFormat, areaWidth: U32, areaHeight: U32,
                      source: array2<Byte>, frame: PendingFrame, dirty: DirtyFrameStats)
    requires FitsBuffer(target, areaWidth, areaHeight) && FitsBuffer(source, frame.width, frame.height)
             && target != source
    requires frame.width == areaWidth && frame.height == areaHeight && InFrame(dirty, areaWidth, areaHeight)
    requires Shows(source, Rgba8888, frame.width, frame.height, frame.pixels)
    modifies target
    ensures forall i, j | 0 <= i < target.Length0 && 0 <= j < target.Length1
                          && !InRect(i, j, 0, 0, areaWidth, areaHeight) ::
              target[i, j] == old(target[i, j])
    ensures forall before: Picture | old(Shows(target, format, areaWidth, areaHeight, before)) ::
              Shows(target, format, areaWidth, areaHeight, PartialPicture(frame, dirty, before))
  {
    CopyRgbaRectToNative(target, format, source, dirty.x, dirty.y, dirty.width, dirty.height);
    forall before: Picture | old(Shows(target, format, areaWidth, areaHeight, before))
      ensures Shows(target, format, areaWidth, areaHeight, PartialPicture(frame, dirty, before))
    {
      forall i: nat, j: nat | i < areaHeight && j < 4 * areaWidth
        ensures target[i, j] == Component(PartialPicture(frame, dirty, before)(j / 4, i), Channel(format, j % 4))
      {
        if InRect(i, j, dirty.x, dirty.y, dirty.width, dirty.height) {
          var x, c := j / 4, Channel(format, j % 4);
          assert (4 * x + c) / 4 == x && (4 * x + c) % 4 == c;
          assert source[i, 4 * x + c] == Component(frame.pixels(x, i), c);
        }
      }
    }
  }

  /** Bars and content together turn any buffer into the full picture. */
  method PaintFull(target: array2<Byte>, format: PixelFormat, areaWidth: U32, areaHeight: U32,
                   source: array2<Byte>, frame: PendingFrame, viewport: RenderViewport)
    requires 0 < frame.width && 0 < frame.height && 0 < areaWidth && 0 < areaHeight
    requires FitsBuffer(target, areaWidth, areaHeight) && FitsBuffer(source, frame.width, frame.height)
             && target != source
    requires viewport == FitFrameIntoTarget(areaWidth, areaHeight, frame.width, frame.height)
    requires Shows(source, Rgba8888, frame.width, frame.height, frame.pixels)
    modifies target
    ensures forall i, j | 0 <= i < target.Length0 && 0 <= j < target.Length1
                          && !InRect(i, j, 0, 0, areaWidth, areaHeight) ::
              target[i, j] == old(target[i, j])
    ensures Shows(target, format, areaWidth, areaHeight, FullPicture(frame, areaWidth, areaHeight))
  {
    FitIsInside(areaWidth, areaHeight, frame.width, frame.height);
    FillNativeLetterbox(target, format, areaWidth, areaHeight, viewport, LETTERBOX);
    CopyScaledRgbaToNative(target, format, source, frame.width, frame.height, viewport);
    FullBytesShowFullPicture(target, format, areaWidth, areaHeight, source, frame, viewport);
  }

  /** How the calls into the window system went for one frame. */
  datatype WindowOutcome = Refused | FlushFailed | Flushed

  predicate Paintable(frame: PendingFrame, areaWidth: U32, areaHeight: U32) {
    0 < frame.width && 0 < frame.height && 0 < areaWidth && 0 < areaHeight
  }

  class Painter {
    var bufferFrameSequences: map<nat, nat>
    var dirtyHistory: seq<HistoryEntry>
    var dirtyHistoryWidth: U32
    var dirtyHistoryHeight: U32

    ghost function State(): PainterState
      reads this
    {
      PainterState(bufferFrameSequences, dirtyHistory, dirtyHistoryWidth, dirtyHistoryHeight)
    }

    ghost predicate Valid()
      reads this
    {
      && |dirtyHistory| <= DIRTY_HISTORY_LIMIT
      && forall i | 0 <= i < |dirtyHistory| :: NoWrap(dirtyHistory[i].dirty)
    }

    constructor ()
      ensures Valid() && State() == EMPTY_PAINTER
    {
      bufferFrameSequences, dirtyHistory, dirtyHistoryWidth, dirtyHistoryHeight := map[], [], 0, 0;
    }

    method Destroy()
      modifies this
      ensures Valid() && State() == EMPTY_PAINTER
    {
      bufferFrameSequences := map[];
      dirtyHistory := [];
      dirtyHistoryWidth := 0;
      dirtyHistoryHeight := 0;
    }

    method CanUsePartialDirty(bufferKey: nat, frame: PendingFrame, areaWidth: U32, areaHeight: U32,
                              viewport: RenderViewport) returns (usable: bool, dirty: DirtyFrameStats)
      ensures var r := PartialDirty(State(), bufferKey, frame, areaWidth, areaHeight, viewport);
              usable == r.Some? && (usable ==> dirty == r.value)
    {
      dirty := NO_DIRTY;
      if bufferKey == 0 || frame.sequence == 0 || frame.dirtySequenceStart == 0 || !frame.dirty.valid {
        return false, dirty;
      }
      if frame.width != areaWidth || frame.height != areaHeight || viewport.x != 0 || viewport.y != 0
         || viewport.width != frame.width || viewport.height != frame.height {
        return false, dirty;
      }
      if dirtyHistoryWidth != frame.width || dirtyHistoryHeight != frame.height {
        return false, dirty;
      }
      if bufferKey !in bufferFrameSequences || bufferFrameSequences[bufferKey] >= frame.sequence {
        return false, dirty;
      }
      var lastBufferSequence := bufferFrameSequences[bufferKey];
      var expectedSequence: nat := lastBufferSequence + 1;
      var accumulated := NO_DIRTY;
      ghost var goal := Walk(dirtyHistory, lastBufferSequence, Chain(expectedSequence, accumulated), frame.width,
                             frame.height);
      for i := 0 to |dirtyHistory|
        invariant goal == Walk(dirtyHistory[i..], lastBufferSequence, Chain(expectedSequence, accumulated),
                               frame.width, frame.height)
      {
        var entry := dirtyHistory[i];
        assert dirtyHistory[i..][1..] == dirtyHistory[i + 1..];
        if entry.toSequence <= lastBufferSequence {
          continue;
        }
        if entry.fromSequence > expectedSequence {
          return false, dirty;
        }
        accumulated := MergeDirtyStats(accumulated, entry.dirty, frame.width, frame.height);
        expectedSequence := entry.toSequence + 1;
      }
      if frame.dirtySequenceStart > expectedSequence {
        return false, dirty;
      }
      accumulated := MergeDirtyStats(accumulated, frame.dirty, frame.width, frame.height);
      if !accumulated.valid || accumulated.width == 0 || accumulated.height == 0 {
        return false, dirty;
      }
      if (accumulated.x + accumulated.width) % U32_LIMIT > areaWidth
         || (accumulated.y + accumulated.height) % U32_LIMIT > areaHeight {
        return false, dirty;
      }
      if accumulated.areaPermille > MAX_PARTIAL_DIRTY_AREA_PERMILLE {
        return false, dirty;
      }
      return true, accumulated;
    }

    method PushHistory(entry: HistoryEntry)
      modifies this`dirtyHistory
      ensures dirtyHistory == Trimmed(old(dirtyHistory) + [entry])
    {
      dirtyHistory := dirtyHistory + [entry];
      ghost var grown := dirtyHistory;
      while |dirtyHistory| > DIRTY_HISTORY_LIMIT
        invariant |dirtyHistory| <= |grown| && dirtyHistory == grown[|grown| - |dirtyHistory|..]
        invariant |grown| >= DIRTY_HISTORY_LIMIT ==> |dirtyHistory| >= DIRTY_HISTORY_LIMIT
        invariant |grown| <= DIRTY_HISTORY_LIMIT ==> dirtyHistory == grown
      {
        dirtyHistory := dirtyHistory[1..];
      }
    }

    method RecordBufferFrame(bufferKey: nat, frame: PendingFrame)
      requires Valid() && NoWrap(frame.dirty)
      modifies this
      ensures Valid() && State() == Recorded(old(State()), bufferKey, frame)
    {
      if frame.sequence == 0 {
        return;
      }
      if dirtyHistoryWidth != frame.width || dirtyHistoryHeight != frame.height {
        dirtyHistory := [];
        bufferFrameSequences := map[];
        dirtyHistoryWidth := frame.width;
        dirtyHistoryHeight := frame.height;
      }
      var from := if frame.dirtySequenceStart == 0 then frame.sequence else frame.dirtySequenceStart;
      PushHistory(HistoryEntry(from, frame.sequence, frame.dirty));
      if bufferKey != 0 {
        bufferFrameSequences := bufferFrameSequences[bufferKey := frame.sequence];
      }
    }

    /** One frame into one window buffer. The bytes are written before the flush, and the frame is
        recorded only after it; a refusal, of an empty frame or target or by the window system, comes before both. */
    method Render(bufferKey: nat, target: array2<Byte>, format: PixelFormat, areaWidth: U32, areaHeight: U32,
                  source: array2<Byte>, frame: PendingFrame, outcome: WindowOutcome)
      returns (ok: bool, partial: bool)
      requires Valid() && NoWrap(frame.dirty)
      requires FitsBuffer(target, areaWidth, areaHeight) && FitsBuffer(source, frame.width, frame.height)
               && target != source
      requires Shows(source, Rgba8888, frame.width, frame.height, frame.pixels)
      modifies this, target
      ensures Valid() && ok == (outcome.Flushed? && Paintable(frame, areaWidth, areaHeight))
      ensures State() == if ok then Recorded(old(State()), bufferKey, frame) else old(State())
      ensures outcome.Refused? || !Paintable(frame, areaWidth, areaHeight) ==>
                forall i, j | 0 <= i < target.Length0 && 0 <= j < target.Length1 ::
                                     target[i, j] == old(target[i, j])
      ensures forall i, j | 0 <= i < target.Length0 && 0 <= j < target.Length1
                            && !InRect(i, j, 0, 0, areaWidth, areaHeight) ::
                target[i, j] == old(target[i, j])
      ensures !outcome.Refused? && Paintable(frame, areaWidth, areaHeight) ==>
                var viewport := FitFrameIntoTarget(areaWidth, areaHeight, frame.width, frame.height);
                match PartialDirty(old(State()), bufferKey, frame, areaWidth, areaHeight, viewport)
                case None =>
                  !partial && Shows(target, format, areaWidth, areaHeight, FullPicture(frame, areaWidth, areaHeight))
                case Some(dirty) =>
                  partial && forall before: Picture | old(Shows(target, format, areaWidth, areaHeight, before)) ::
                                      Shows(target, format, areaWidth, areaHeight, PartialPicture(frame, dirty, before))
    {
      if areaWidth == 0 || areaHeight == 0 || frame.width == 0 || frame.height == 0 || outcome.Refused? {
        return false, false;
      }
      var viewport := FitFrameIntoTarget(areaWidth, areaHeight, frame.width, frame.height);
      var dirty;
      partial, dirty := CanUsePartialDirty(bufferKey, frame, areaWidth, areaHeight, viewport);
      if partial {
        PartialDirtyIsInArea(State(), bufferKey, frame, areaWidth, areaHeight, viewport);
        PaintPartial(target, format, areaWidth, areaHeight, source, frame, dirty);
      } else {
        PaintFull(target, format, areaWidth, areaHeight, source, frame, viewport);
      }
      if outcome.FlushFailed? {
        return false, partial;
      }
      RecordBufferFrame(bufferKey, frame);
      return true, partial;
    }
  }

  lemma FitIsInside(areaWidth: U32, areaHeight: U32, width: U32, height: U32)
    requires 0 < width && 0 < height && 0 < areaWidth && 0 < areaHeight
    ensures var v := FitFrameIntoTarget(areaWidth, areaHeight, width, height);
            0 < v.width && 0 < v.height && v.x + v.width <= areaWidth && v.y + v.height <= areaHeight
  {
    RemoteContentGeometry.FitIsInsideAndCentred(areaWidth, areaHeight, width, height);
  }

  lemma FullBytesShowFullPicture(target: array2<Byte>, format: PixelFormat, areaWidth: U32, areaHeight: U32,
                                 source: array2<Byte>, frame: PendingFrame, viewport: RenderViewport)
    requires 0 < frame.width && 0 < frame.height
    requires FitsBuffer(target, areaWidth, areaHeight) && FitsBuffer(source, frame.width, frame.height)
    requires viewport == FitFrameIntoTarget(areaWidth, areaHeight, frame.width, frame.height)
    requires Shows(source, Rgba8888, frame.width, frame.height, frame.pixels)
    requires forall i, j | 0 <= i < areaHeight && 0 <= j < 4 * areaWidth ::
               target[i, j] == if InRect(i, j, viewport.x, viewport.y, viewport.width, viewport.height)
                               then ScaledByte(source, format, frame.width, frame.height, viewport, i, j)
                               else Component(LETTERBOX, Channel(format, j % 4))
    ensures Shows(target, format, areaWidth, areaHeight, FullPicture(frame, areaWidth, areaHeight))
  {
    var full := FullPicture(frame, areaWidth, areaHeight);
    forall i: nat, j: nat | i < areaHeight && j < 4 * areaWidth
      ensures target[i, j] == Component(full(j / 4, i), Channel(format, j % 4))
    {
      var v := viewport;
      if InRect(i, j, v.x, v.y, v.width, v.height) {
        var sx, sy := Sample(j / 4 - v.x, frame.width, v.width), Sample(i - v.y, frame.height, v.height);
        var c := Channel(format, j % 4);
        assert full(j / 4, i) == frame.pixels(sx, sy);
        assert source[sy, 4 * sx + c] == Component(frame.pixels(sx, sy), c) by {
          assert (4 * sx + c) / 4 == sx && (4 * sx + c) % 4 == c;
        }
      }
    }
  }
}
