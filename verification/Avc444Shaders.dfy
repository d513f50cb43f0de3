/** The AVC444 plane shaders (surface/avc444_gpu_renderer.cpp), one function per fragment. A 4:4:4 frame
    travels as two 4:2:0 views (MS-RDPEGFX sections 3.3.8.3.2 and 3.3.8.3.3); the shaders say from where
    in a decoded view each sample of the Y, U and V planes comes. */
module Avc444Shaders {

  type Byte = n: nat | n < 256
  type Samples = (nat, nat) -> Byte
  type ChromaSamples = (nat, nat) -> (Byte, Byte)

  /** A decoded view: its luma samples, its interleaved chroma samples and which of the two comes first. */
  datatype DecodedFrame = DecodedFrame(y: Samples, uv: ChromaSamples, nv21: bool, yHeight: nat, alignedWidth: nat)

  datatype Rect = Rect(left: nat, top: nat, right: nat, bottom: nat)

  datatype PlaneId = U | V

  datatype Codec = V1 | V2

  /** Where a fragment takes its value from. */
  datatype Fetch = FromY(x: nat, y: nat) | FromUv(second: bool, x: nat, y: nat) | Keep

  predicate Contains(rect: Rect, x: nat, y: nat) { rect.left <= x < rect.right && rect.top <= y < rect.bottom }

  function SampleUv(frame: DecodedFrame, x: nat, y: nat, component: nat): Byte {
    if component == 0 then frame.uv(x, y).0 else frame.uv(x, y).1
  }

  /** Which texture component holds the frame's U, or its V. */
  function SrcComponent(frame: DecodedFrame, wantV: bool): nat {
    if frame.nv21 then (if wantV then 0 else 1) else (if wantV then 1 else 0)
  }

  function Read(frame: DecodedFrame, fetch: Fetch, previous: Byte): Byte {
    match fetch
    case FromY(x, y) => frame.y(x, y)
    case FromUv(wantV, x, y) => SampleUv(frame, x, y, SrcComponent(frame, wantV))
    case Keep => previous
  }

  // ---- The shaders ----

  function CopyY(frame: DecodedFrame, x: nat, y: nat): Byte { frame.y(x, y) }

  /** The base chroma of the main view, repeated over its 2x2 block. */
  function LumaUvFetch(rect: Rect, plane: PlaneId, x: nat, y: nat): Fetch
    requires Contains(rect, x, y)
  {
    FromUv(plane.V?, rect.left / 2 + (x - rect.left) / 2, rect.top / 2 + (y - rect.top) / 2)
  }

  /** AVC444: odd rows come from the luma of the auxiliary view, eight of U then eight of V per sixteen;
      odd columns of even rows from its chroma. */
  function ChromaV1Fetch(rect: Rect, plane: PlaneId, yHeight: nat, x: nat, y: nat): Fetch
    requires Contains(rect, x, y) && 0 < yHeight
  {
    var relX, relY := x - rect.left, y - rect.top;
    var rectWidth, rectHeight := rect.right - rect.left, rect.bottom - rect.top;
    if relY % 2 == 1 then
      var oddRow := relY / 2;
      var group := oddRow / 8;
      var inGroup := oddRow - group * 8;
      var srcY := rect.top + group * 16 + inGroup + (if plane.V? then 8 else 0);
      FromY(rect.left + relX, if srcY < yHeight - 1 then srcY else yHeight - 1)
    else if relX % 2 == 1 && relY < (rectHeight / 2) * 2 && relX < (rectWidth / 2) * 2 then
      FromUv(plane.V?, rect.left / 2 + relX / 2, rect.top / 2 + relY / 2)
    else Keep
  }

  /** AVC444v2: odd columns come from the luma of the auxiliary view, U in its left half and V in its right;
      the even columns of odd rows from its chroma, by columns modulo four. */
  function ChromaV2Fetch(rect: Rect, plane: PlaneId, alignedWidth: nat, x: nat, y: nat): Fetch
    requires Contains(rect, x, y)
  {
    var relX, relY := x - rect.left, y - rect.top;
    if relX % 2 == 1 then
      FromY(rect.left / 2 + relX / 2 + (if plane.V? then alignedWidth / 2 else 0), y)
    else if relY % 2 == 1 && relX % 4 == 0 then
      FromUv(false, rect.left / 4 + relX / 4 + (if plane.V? then alignedWidth / 4 else 0), rect.top / 2 + relY / 2)
    else if relY % 2 == 1 && relX % 4 == 2 then
      FromUv(true, rect.left / 4 + relX / 4 + (if plane.V? then alignedWidth / 4 else 0), rect.top / 2 + relY / 2)
    else Keep
  }

  function ChromaFetch(codec: Codec, frame: DecodedFrame, rect: Rect, plane: PlaneId, x: nat, y: nat): Fetch
    requires Contains(rect, x, y) && 0 < frame.yHeight
  {
    if codec.V1? then ChromaV1Fetch(rect, plane, frame.yHeight, x, y)
    else ChromaV2Fetch(rect, plane, frame.alignedWidth, x, y)
  }

  // ---- Rectangle-relative addressing ----

  predicate EvenRect(rect: Rect, width: nat, height: nat) {
    && rect.left < rect.right <= width && rect.top < rect.bottom <= height
    && (rect.right - rect.left) % 2 == 0 && (rect.bottom - rect.top) % 2 == 0
  }

  predicate Aligned(codec: Codec, rect: Rect) {
    if codec.V1? then rect.left % 2 == 0 && rect.top % 16 == 0
    else rect.left % 4 == 0 && rect.top % 2 == 0
  }

  function Whole(width: nat, height: nat): Rect { Rect(0, 0, width, height) }

  /** Every fragment of the rectangle reads where it would read if the whole surface were one rectangle. */
  ghost predicate AddressesLikeWhole(codec: Codec, frame: DecodedFrame, rect: Rect, width: nat, height: nat)
    requires 0 < frame.yHeight && EvenRect(rect, width, height)
  {
    forall plane: PlaneId, x: nat, y: nat | Contains(rect, x, y) ::
      ChromaFetch(codec, frame, rect, plane, x, y) == ChromaFetch(codec, frame, Whole(width, height), plane, x, y)
  }

  lemma HalfOfShifted(k: nat, r: nat)
    ensures (16 * k + r) / 2 == 8 * k + r / 2
  {
  }

  lemma EighthOfShifted(k: nat, m: nat)
    ensures (8 * k + m) / 8 == k + m / 8
  {
  }

  /** The row of the auxiliary luma, before V's offset, that holds a row at the given distance from the top. */
  function GroupRow(relY: nat): nat { relY / 2 / 8 * 16 + (relY / 2 - relY / 2 / 8 * 8) }

  lemma RowOfGroup(top: nat, relY: nat)
    requires top % 16 == 0
    ensures top + GroupRow(relY) == GroupRow(top + relY)
  {
    var k := top / 16;
    assert top == 16 * k;
    HalfOfShifted(k, relY);
    EighthOfShifted(k, relY / 2);
  }

  lemma HalvesAdd(start: nat, position: nat)
    requires start % 2 == 0 && start <= position
    ensures start / 2 + (position - start) / 2 == position / 2 && (position - start) % 2 == position % 2
  {
  }

  lemma QuartersAdd(start: nat, position: nat)
    requires start % 4 == 0 && start <= position
    ensures start / 4 + (position - start) / 4 == position / 4 && (position - start) % 4 == position % 4
  {
  }

  lemma EvenIsTwiceItsHalf(n: nat)
    requires n % 2 == 0
    ensures n / 2 * 2 == n
  {
  }

  /** The AVC444 source, in terms of what the addressing depends on. */
  function V1Source(plane: PlaneId, yHeight: nat, x: nat, oddRow: bool, row: nat, oddColumn: bool, halfX: nat,
                    halfY: nat): Fetch
    requires 0 < yHeight
  {
    var srcY := row + (if plane.V? then 8 else 0);
    if oddRow then FromY(x, if srcY < yHeight - 1 then srcY else yHeight - 1)
    else if oddColumn then FromUv(plane.V?, halfX, halfY)
    else Keep
  }

  lemma V1FetchIs(rect: Rect, yHeight: nat, width: nat, height: nat, plane: PlaneId, x: nat, y: nat)
    requires 0 < yHeight && EvenRect(rect, width, height) && Contains(rect, x, y)
    ensures var relX, relY := x - rect.left, y - rect.top;
            ChromaV1Fetch(rect, plane, yHeight, x, y) ==
            V1Source(plane, yHeight, x, relY % 2 == 1, rect.top + GroupRow(relY), relX % 2 == 1,
                     rect.left / 2 + relX / 2, rect.top / 2 + relY / 2)
  {
    EvenIsTwiceItsHalf(rect.right - rect.left);
    EvenIsTwiceItsHalf(rect.bottom - rect.top);
  }

  lemma RowOfGroupAt(top: nat, y: nat)
    requires top % 16 == 0 && top <= y
    ensures top + GroupRow(y - top) == GroupRow(y)
  {
    RowOfGroup(top, y - top);
  }

  lemma SameV1Source(plane: PlaneId, yHeight: nat, x: nat, fetch: Fetch, odd: bool, odd': bool, row: nat, row': nat,
                     column: bool, column': bool, halfX: nat, halfX': nat, halfY: nat, halfY': nat)
    requires 0 < yHeight && fetch == V1Source(plane, yHeight, x, odd, row, column, halfX, halfY)
    requires odd == odd' && row == row' && column == column' && halfX == halfX' && halfY == halfY'
    ensures fetch == V1Source(plane, yHeight, x, odd', row', column', halfX', halfY')
  {
  }

  lemma V1RectFetchIs(rect: Rect, yHeight: nat, width: nat, height: nat, plane: PlaneId, x: nat, y: nat)
    requires 0 < yHeight && EvenRect(rect, width, height) && Aligned(V1, rect) && Contains(rect, x, y)
    ensures ChromaV1Fetch(rect, plane, yHeight, x, y)
         == V1Source(plane, yHeight, x, y % 2 == 1, GroupRow(y), x % 2 == 1, x / 2, y / 2)
  {
    var relX, relY := x - rect.left, y - rect.top;
    V1FetchIs(rect, yHeight, width, height, plane, x, y);
    RowOfGroupAt(rect.top, y);
    HalvesAdd(rect.left, x);
    HalvesAdd(rect.top, y);
    SameV1Source(plane, yHeight, x, ChromaV1Fetch(rect, plane, yHeight, x, y), relY % 2 == 1, y % 2 == 1,
                 rect.top + GroupRow(relY), GroupRow(y), relX % 2 == 1, x % 2 == 1,
                 rect.left / 2 + relX / 2, x / 2, rect.top / 2 + relY / 2, y / 2);
  }

  lemma V1RectsTile(rect: Rect, yHeight: nat, width: nat, height: nat, plane: PlaneId, x: nat, y: nat)
    requires 0 < yHeight && width % 2 == 0 && height % 2 == 0
    requires EvenRect(rect, width, height) && Aligned(V1, rect) && Contains(rect, x, y)
    ensures ChromaV1Fetch(rect, plane, yHeight, x, y) == ChromaV1Fetch(Whole(width, height), plane, yHeight, x, y)
  {
    V1RectFetchIs(rect, yHeight, width, height, plane, x, y);
    V1RectFetchIs(Whole(width, height), yHeight, width, height, plane, x, y);
  }

  /** The AVC444v2 source, in terms of what the addressing depends on. */
  function V2Source(plane: PlaneId, alignedWidth: nat, y: nat, columnMod4: nat, oddRow: bool, halfX: nat, quarterX: nat,
                    halfY: nat): Fetch {
    if columnMod4 % 2 == 1 then FromY(halfX + (if plane.V? then alignedWidth / 2 else 0), y)
    else if oddRow then FromUv(columnMod4 == 2, quarterX + (if plane.V? then alignedWidth / 4 else 0), halfY)
    else Keep
  }

  lemma OddByFours(n: nat)
    ensures n % 4 % 2 == n % 2
  {
  }

  lemma V2FetchIs(rect: Rect, alignedWidth: nat, plane: PlaneId, x: nat, y: nat)
    requires Contains(rect, x, y)
    ensures var relX, relY := x - rect.left, y - rect.top;
            ChromaV2Fetch(rect, plane, alignedWidth, x, y) ==
            V2Source(plane, alignedWidth, y, relX % 4, relY % 2 == 1,
                     rect.left / 2 + relX / 2, rect.left / 4 + relX / 4,
                     rect.top / 2 + relY / 2)
  {
    OddByFours(x - rect.left);
  }

  lemma V2RectsTile(rect: Rect, alignedWidth: nat, width: nat, height: nat, plane: PlaneId, x: nat, y: nat)
    requires EvenRect(rect, width, height) && Aligned(V2, rect) && Contains(rect, x, y)
    ensures ChromaV2Fetch(rect, plane, alignedWidth, x, y) ==
      ChromaV2Fetch(Whole(width, height), plane, alignedWidth, x, y)
  {
    V2FetchIs(rect, alignedWidth, plane, x, y);
    V2FetchIs(Whole(width, height), alignedWidth, plane, x, y);
    HalvesAdd(rect.left, x);
    HalvesAdd(rect.top, y);
    QuartersAdd(rect.left, x);
  }

  /** Aligned rectangles can be decoded one by one. */
  lemma AlignedRectsTile(codec: Codec, frame: DecodedFrame, rect: Rect, width: nat, height: nat, plane: PlaneId, x: nat,
                         y: nat)
    requires 0 < frame.yHeight && width % 2 == 0 && height % 2 == 0
    requires EvenRect(rect, width, height) && Aligned(codec, rect) && Contains(rect, x, y)
    ensures ChromaFetch(codec, frame, rect, plane, x, y) == ChromaFetch(codec, frame, Whole(width, height), plane, x, y)
  {
    if codec.V1? {
      V1RectsTile(rect, frame.yHeight, width, height, plane, x, y);
    } else {
      V2RectsTile(rect, frame.alignedWidth, width, height, plane, x, y);
    }
  }

  /** The base chroma only needs even corners. */
  lemma LumaRectsTile(rect: Rect, width: nat, height: nat, plane: PlaneId, x: nat, y: nat)
    requires rect.right <= width && rect.bottom <= height && rect.left % 2 == 0 && rect.top % 2 == 0
             && Contains(rect, x, y)
    ensures LumaUvFetch(rect, plane, x, y) == LumaUvFetch(Whole(width, height), plane, x, y)
  {
  }

  lemma TopRowForcesSixteen(top: nat)
    requires top % 2 == 0 && top == (top + 1) / 2 / 8 * 16 + ((top + 1) / 2 - (top + 1) / 2 / 8 * 8)
    ensures top % 16 == 0
  {
    var h := top / 2;
    assert top == 2 * h && (top + 1) / 2 == h;
    var g := h / 8;
    assert 2 * h == g * 16 + (h - g * 8);
    assert top == 16 * g;
  }

  lemma UnalignedV1Differs(frame: DecodedFrame, rect: Rect, width: nat, height: nat)
    requires width % 2 == 0 && height % 2 == 0 && EvenRect(rect, width, height) && height <= frame.yHeight
    requires AddressesLikeWhole(V1, frame, rect, width, height)
    ensures Aligned(V1, rect)
  {
    var l, t := rect.left, rect.top;
    var whole := Whole(width, height);
    assert Contains(rect, l, t) && Contains(rect, l + 1, t) && Contains(rect, l, t + 1);
    assert ChromaFetch(V1, frame, rect, U, l, t) == Keep;
    assert ChromaFetch(V1, frame, whole, U, l, t) == Keep;
    assert ChromaFetch(V1, frame, rect, U, l + 1, t) == ChromaFetch(V1, frame, whole, U, l + 1, t);
    assert ChromaFetch(V1, frame, rect, U, l, t + 1) == ChromaFetch(V1, frame, whole, U, l, t + 1);
    TopRowForcesSixteen(t);
  }

  lemma UnalignedV2Differs(frame: DecodedFrame, rect: Rect, width: nat, height: nat)
    requires width % 2 == 0 && height % 2 == 0 && EvenRect(rect, width, height) && 0 < frame.yHeight
    requires AddressesLikeWhole(V2, frame, rect, width, height)
    ensures Aligned(V2, rect)
  {
    var l, t := rect.left, rect.top;
    var whole := Whole(width, height);
    assert Contains(rect, l, t) && Contains(rect, l, t + 1);
    assert ChromaFetch(V2, frame, rect, U, l, t) == Keep;
    assert ChromaFetch(V2, frame, whole, U, l, t) == Keep;
    assert ChromaFetch(V2, frame, rect, U, l, t + 1) == ChromaFetch(V2, frame, whole, U, l, t + 1);
  }

  /** Rectangle-relative addressing agrees with whole-surface addressing exactly for aligned rectangles. */
  lemma TilesExactlyWhenAligned(codec: Codec, frame: DecodedFrame, rect: Rect, width: nat, height: nat)
    requires width % 2 == 0 && height % 2 == 0 && EvenRect(rect, width, height) && height <= frame.yHeight
    ensures AddressesLikeWhole(codec, frame, rect, width, height) <==> Aligned(codec, rect)
  {
    if Aligned(codec, rect) {
      forall plane: PlaneId, x: nat, y: nat | Contains(rect, x, y)
        ensures ChromaFetch(codec, frame, rect, plane, x, y) ==
          ChromaFetch(codec, frame, Whole(width, height), plane, x, y)
      {
        AlignedRectsTile(codec, frame, rect, width, height, plane, x, y);
      }
    }
    if AddressesLikeWhole(codec, frame, rect, width, height) {
      if codec.V1? {
        UnalignedV1Differs(frame, rect, width, height);
      } else {
        UnalignedV2Differs(frame, rect, width, height);
      }
    }
  }

  // ---- Updates and the last writer ----

  datatype Update =
    | Luma(frame: DecodedFrame, rects: seq<Rect>)
    | Chroma(codec: Codec, frame: DecodedFrame, rects: seq<Rect>)

  /** The last rectangle of a list that contains the sample: rectangles are drawn in order. */
  function LastRect(rects: seq<Rect>, x: nat, y: nat): (r: seq<Rect>)
    ensures |r| <= 1 && (|r| == 1 ==> Contains(r[0], x, y) && r[0] in rects)
    ensures r == [] <==> forall i | 0 <= i < |rects| :: !Contains(rects[i], x, y)
  {
    if rects == [] then []
    else if Contains(rects[|rects| - 1], x, y) then [rects[|rects| - 1]]
    else
      var r := LastRect(rects[..|rects| - 1], x, y);
      assert forall i | 0 <= i < |rects| - 1 :: rects[..|rects| - 1][i] == rects[i];
      r
  }

  /** Of the rectangles that contain the sample it is the one drawn last. */
  lemma {:induction false} LastRectIsDrawnLast(rects: seq<Rect>, x: nat, y: nat, i: nat)
    requires i < |rects| && Contains(rects[i], x, y) && forall k | i < k < |rects| :: !Contains(rects[k], x, y)
    ensures LastRect(rects, x, y) == [rects[i]]
  {
    if i < |rects| - 1 {
      LastRectIsDrawnLast(rects[..|rects| - 1], x, y, i);
    }
  }

  /** A chroma sample after an update, as the draw calls leave it. Every draw reads the plane as it was
      before the update. */
  function AfterUpdate(update: Update, plane: PlaneId, x: nat, y: nat, before: Byte): Byte
    requires 0 < update.frame.yHeight
  {
    var r := LastRect(update.rects, x, y);
    if r == [] then before
    else match update
      case Luma(frame, _) => Read(frame, LumaUvFetch(r[0], plane, x, y), before)
      case Chroma(codec, frame, _) => Read(frame, ChromaFetch(codec, frame, r[0], plane, x, y), before)
  }

  function AfterUpdateY(update: Update, x: nat, y: nat, before: Byte): Byte {
    if update.Luma? && LastRect(update.rects, x, y) != [] then CopyY(update.frame, x, y) else before
  }

  predicate WellFormed(update: Update, width: nat, height: nat) {
    && 0 < update.frame.yHeight
    && forall i | 0 <= i < |update.rects| ::
         && EvenRect(update.rects[i], width, height)
         && update.rects[i].left % 2 == 0 && update.rects[i].top % 2 == 0
         && (update.Chroma? ==> Aligned(update.codec, update.rects[i]))
  }

  /** Where the update as a whole takes a sample from; Keep when it does not write it. */
  function UpdateFetch(update: Update, plane: PlaneId, width: nat, height: nat, x: nat, y: nat): Fetch
    requires 0 < update.frame.yHeight && x < width && y < height
  {
    if LastRect(update.rects, x, y) == [] then Keep
    else match update
      case Luma(_, _) => LumaUvFetch(Whole(width, height), plane, x, y)
      case Chroma(codec, frame, _) => ChromaFetch(codec, frame, Whole(width, height), plane, x, y)
  }

  /** Overlapping rectangles of one update agree, so the order they are drawn in does not matter. */
  lemma UpdateIsOneFetch(update: Update, plane: PlaneId, width: nat, height: nat, x: nat, y: nat, before: Byte)
    requires width % 2 == 0 && height % 2 == 0 && WellFormed(update, width, height) && x < width && y < height
    ensures AfterUpdate(update, plane, x, y, before) ==
      Read(update.frame, UpdateFetch(update, plane, width, height, x, y), before)
  {
    var r := LastRect(update.rects, x, y);
    if r != [] {
      var i :| 0 <= i < |update.rects| && update.rects[i] == r[0];
      if update.Luma? { LumaRectsTile(r[0], width, height, plane, x, y); }
      else { AlignedRectsTile(update.codec, update.frame, r[0], width, height, plane, x, y); }
    }
  }

  predicate HaveRows(updates: seq<Update>) {
    forall i | 0 <= i < |updates| :: 0 < updates[i].frame.yHeight
  }

  function AfterUpdates(updates: seq<Update>, plane: PlaneId, x: nat, y: nat, before: Byte): Byte
    requires HaveRows(updates)
  {
    if updates == [] then before
    else AfterUpdate(updates[|updates| - 1], plane, x, y, AfterUpdates(updates[..|updates| - 1], plane, x, y, before))
  }

  /** The updates of a stream, each well formed for the surface. */
  predicate AllWellFormed(updates: seq<Update>, width: nat, height: nat) {
    forall i | 0 <= i < |updates| :: WellFormed(updates[i], width, height)
  }

  predicate Writes(update: Update, plane: PlaneId, width: nat, height: nat, x: nat, y: nat)
    requires WellFormed(update, width, height) && x < width && y < height
  {
    UpdateFetch(update, plane, width, height, x, y) != Keep
  }

  /** After any sequence of luma and chroma updates a sample holds what the last update writing it read,
      and its first value when none did. */
  lemma {:induction false} LastWriterWins(updates: seq<Update>, plane: PlaneId, width: nat, height: nat, x: nat, y: nat,
                                          before: Byte, k: int)
    requires width % 2 == 0 && height % 2 == 0 && x < width && y < height
    requires AllWellFormed(updates, width, height)
    requires -1 <= k < |updates|
    requires forall i | k < i < |updates| :: !Writes(updates[i], plane, width, height, x, y)
    requires 0 <= k ==> Writes(updates[k], plane, width, height, x, y)
    ensures HaveRows(updates)
    ensures AfterUpdates(updates, plane, x, y, before) ==
            if k < 0 then before
            else Read(updates[k].frame, UpdateFetch(updates[k], plane, width, height, x, y), before)
  {
    if updates != [] {
      var n := |updates| - 1;
      var earlier := AfterUpdates(updates[..n], plane, x, y, before);
      UpdateIsOneFetch(updates[n], plane, width, height, x, y, earlier);
      if k < n {
        LastWriterWins(updates[..n], plane, width, height, x, y, before, k);
      }
    }
  }

  /** Unaligned, overlapping rectangles do lose writes: the second rectangle below puts back the value from
      before the update at a sample that the first one wrote. */
  lemma OverlapLosesWritesWhenUnaligned()
    ensures var frame := DecodedFrame((x, y) => 7, (x, y) => (7, 7), false, 64, 16);
            var first, second := Rect(0, 0, 4, 4), Rect(1, 0, 5, 4);
            && AfterUpdate(Chroma(V1, frame, [first]), U, 1, 0, 0) == 7
            && AfterUpdate(Chroma(V1, frame, [first, second]), U, 1, 0, 0) == 0
  {
    var first, second := Rect(0, 0, 4, 4), Rect(1, 0, 5, 4);
    assert LastRect([first], 1, 0) == [first];
    assert LastRect([first, second], 1, 0) == [second];
  }

  // ---- Where the shaders read, without division ----

  /** The base chroma of a plane at a chroma position: the second component is V's in NV12 order and U's in NV21. */
  function BaseChroma(frame: DecodedFrame, plane: PlaneId, cx: nat, cy: nat): Byte {
    if plane.V? != frame.nv21 then frame.uv(cx, cy).1 else frame.uv(cx, cy).0
  }

  /** Chroma position (cx, cy) is that of the 2x2 block that (x, y) lies in. */
  predicate IsBlockOf(cx: nat, cy: nat, x: nat, y: nat) { 2 * cx <= x < 2 * cx + 2 && 2 * cy <= y < 2 * cy + 2 }

  /** After a well-formed luma update alone, every sample inside its rectangles holds the base chroma of its own 2x2
      block, Y is the frame's, and every other sample is as it was. */
  lemma LumaIsBaseChroma(update: Update, plane: PlaneId, width: nat, height: nat, x: nat, y: nat, before: Byte,
                         cx: nat, cy: nat)
    requires update.Luma? && WellFormed(update, width, height) && IsBlockOf(cx, cy, x, y)
    ensures if exists i :: 0 <= i < |update.rects| && Contains(update.rects[i], x, y)
            then AfterUpdate(update, plane, x, y, before) == BaseChroma(update.frame, plane, cx, cy)
                 && AfterUpdateY(update, x, y, before) == update.frame.y(x, y)
            else AfterUpdate(update, plane, x, y, before) == before == AfterUpdateY(update, x, y, before)
  {
    var r := LastRect(update.rects, x, y);
    if r != [] {
      var i :| 0 <= i < |update.rects| && update.rects[i] == r[0];
      HalvesAdd(r[0].left, x);
      HalvesAdd(r[0].top, y);
      BlockIsHalf(cx, x);
      BlockIsHalf(cy, y);
    }
  }

  lemma BlockIsHalf(c: nat, n: nat)
    requires 2 * c <= n < 2 * c + 2
    ensures n / 2 == c
  {
  }

  /** An AVC444 auxiliary fragment in a rectangle of any position and size. Odd rows 16g + 2k + 1 (k < 8) of the
      rectangle come from luma row 16g + k, or 16g + k + 8 for V, but never from below the last luma row; odd columns
      of even rows from the auxiliary chroma, unless the row is the last one of an odd number; the rest stays. */
  lemma V1ReadsFrom(rect: Rect, plane: PlaneId, yHeight: nat, x: nat, y: nat, g: nat, k: nat, a: nat, b: nat)
    requires Contains(rect, x, y) && 0 < yHeight && k < 8
    ensures y == rect.top + 16 * g + 2 * k + 1 ==>
              var row := rect.top + 16 * g + k + (if plane.V? then 8 else 0);
              ChromaV1Fetch(rect, plane, yHeight, x, y) == FromY(x, if row < yHeight then row else yHeight - 1)
    ensures x == rect.left + 2 * a + 1 && y == rect.top + 2 * b ==>
              ChromaV1Fetch(rect, plane, yHeight, x, y) ==
              if y + 1 < rect.bottom then FromUv(plane.V?, rect.left / 2 + a, rect.top / 2 + b) else Keep
    ensures x == rect.left + 2 * a && y == rect.top + 2 * b ==> ChromaV1Fetch(rect, plane, yHeight, x, y) == Keep
  {
    if y == rect.top + 16 * g + 2 * k + 1 {
      GroupOfRow(y - rect.top, g, k);
    }
    if y == rect.top + 2 * b {
      EvenOffset(y - rect.top, b, rect.bottom - rect.top);
    }
    if x == rect.left + 2 * a + 1 {
      OddOffset(x - rect.left, a, rect.right - rect.left);
    }
  }

  lemma GroupOfRow(relY: nat, g: nat, k: nat)
    requires relY == 16 * g + 2 * k + 1 && k < 8
    ensures relY % 2 == 1 && relY / 2 == 8 * g + k && relY / 2 / 8 == g
  {
    assert relY / 2 == 8 * g + k;
    EighthOfShifted(g, k);
  }

  lemma EvenOffset(n: nat, half: nat, length: nat)
    requires n == 2 * half && n < length
    ensures n % 2 == 0 && n / 2 == half && (n < length / 2 * 2 <==> n + 1 < length)
  {
  }

  lemma OddOffset(n: nat, half: nat, length: nat)
    requires n == 2 * half + 1 && n < length
    ensures n % 2 == 1 && n / 2 == half && n < length / 2 * 2
  {
  }

  /** An AVC444v2 auxiliary fragment in a rectangle of any position and size: odd columns from the auxiliary luma, the
      even columns of odd rows from its chroma, and V from the right half of either; the rest stays. */
  lemma V2ReadsFrom(rect: Rect, plane: PlaneId, alignedWidth: nat, x: nat, y: nat, a: nat, b: nat)
    requires Contains(rect, x, y)
    ensures x == rect.left + 2 * a + 1 ==>
              ChromaV2Fetch(rect, plane, alignedWidth, x, y) ==
              FromY(rect.left / 2 + a + (if plane.V? then alignedWidth / 2 else 0), y)
    ensures x == rect.left + 4 * a && y == rect.top + 2 * b + 1 ==>
              ChromaV2Fetch(rect, plane, alignedWidth, x, y) ==
              FromUv(false, rect.left / 4 + a + (if plane.V? then alignedWidth / 4 else 0), rect.top / 2 + b)
    ensures x == rect.left + 4 * a + 2 && y == rect.top + 2 * b + 1 ==>
              ChromaV2Fetch(rect, plane, alignedWidth, x, y) ==
              FromUv(true, rect.left / 4 + a + (if plane.V? then alignedWidth / 4 else 0), rect.top / 2 + b)
    ensures x == rect.left + 2 * a && y == rect.top + 2 * b ==>
              ChromaV2Fetch(rect, plane, alignedWidth, x, y) == Keep
  {
    V2FetchIs(rect, alignedWidth, plane, x, y);
  }

  // ---- The encoder's split and the round trip ----

  /** A 4:4:4 frame, padded to the right and below by whatever the encoder adds. */
  datatype Frame444 = Frame444(y: Samples, u: Samples, v: Samples)

  function Plane(frame: Frame444, plane: PlaneId): Samples { if plane.U? then frame.u else frame.v }

  function Average(p: Samples, x: nat, y: nat): Byte {
    (p(x, y) + p(x + 1, y) + p(x, y + 1) + p(x + 1, y + 1)) / 4
  }

  function Pair(nv21: bool, u: Byte, v: Byte): (Byte, Byte) { if nv21 then (v, u) else (u, v) }

  /** The main view: all of Y, and the floor averages of the 2x2 blocks of U and V. */
  function MainView(frame: Frame444, nv21: bool, yHeight: nat, alignedWidth: nat): DecodedFrame {
    DecodedFrame(frame.y,
                 (x: nat, y: nat) => Pair(nv21, Average(frame.u, 2 * x, 2 * y), Average(frame.v, 2 * x, 2 * y)),
                 nv21, yHeight, alignedWidth)
  }

  /** Section 3.3.8.3.2: sixteen auxiliary luma rows hold eight odd rows of U and the same eight of V; the
      auxiliary chroma holds the odd columns of the even rows. */
  function AuxiliaryV1(frame: Frame444, nv21: bool, yHeight: nat): DecodedFrame {
    DecodedFrame((x: nat, y: nat) => if y % 16 < 8 then frame.u(x, y / 16 * 16 + 2 * (y % 16) + 1)
                                     else frame.v(x, y / 16 * 16 + 2 * (y % 16 - 8) + 1),
                 (x: nat, y: nat) => Pair(nv21, frame.u(2 * x + 1, 2 * y), frame.v(2 * x + 1, 2 * y)),
                 nv21, yHeight, 0)
  }

  /** Section 3.3.8.3.3: the auxiliary luma holds the odd columns, U left and V right; the auxiliary chroma
      holds the even columns of the odd rows, columns 0 modulo 4 in its U and 2 modulo 4 in its V. */
  function AuxiliaryV2(frame: Frame444, nv21: bool, yHeight: nat, alignedWidth: nat): DecodedFrame {
    DecodedFrame((x: nat, y: nat) => if x < alignedWidth / 2 then frame.u(2 * x + 1, y)
                                     else frame.v(2 * (x - alignedWidth / 2) + 1, y),
                 (x: nat, y: nat) =>
                   if x < alignedWidth / 4 then Pair(nv21, frame.u(4 * x, 2 * y + 1), frame.u(4 * x + 2, 2 * y + 1))
                   else Pair(nv21, frame.v(4 * (x - alignedWidth / 4), 2 * y + 1),
                             frame.v(4 * (x - alignedWidth / 4) + 2, 2 * y + 1)),
                 nv21, yHeight, alignedWidth)
  }

  /** The two updates that carry one frame over the whole surface. */
  function Transmit(codec: Codec, frame: Frame444, nv21: bool, width: nat, height: nat, yHeight: nat,
                    alignedWidth: nat): seq<Update> {
    [Luma(MainView(frame, nv21, yHeight, alignedWidth), [Whole(width, height)]),
     Chroma(codec,
            if codec.V1? then AuxiliaryV1(frame, nv21, yHeight) else AuxiliaryV2(frame, nv21, yHeight, alignedWidth),
            [Whole(width, height)])]
  }

  /** Even sizes, an auxiliary luma plane of whole sixteen-row groups, and for AVC444v2 an aligned width
      of a multiple of four that holds the surface. */
  predicate Padded(codec: Codec, width: nat, height: nat, yHeight: nat, alignedWidth: nat) {
    && 0 < width && 0 < height && width % 2 == 0 && height % 2 == 0
    && (codec.V1? ==> height <= yHeight && yHeight % 16 == 0)
    && (codec.V2? ==> 0 < yHeight && width <= alignedWidth && alignedWidth % 4 == 0)
  }

  predicate BothEven(x: nat, y: nat) { x % 2 == 0 && y % 2 == 0 }

  lemma OddRowAddress(y: nat)
    requires y % 2 == 1
    ensures y / 2 - y / 2 / 8 * 8 < 8 && y == y / 2 / 8 * 16 + 2 * (y / 2 - y / 2 / 8 * 8) + 1
  {
  }

  lemma SixteenGroups(group: nat, rest: nat, yHeight: nat)
    requires rest < 16 && yHeight % 16 == 0 && group * 16 < yHeight
    ensures (group * 16 + rest) / 16 == group && (group * 16 + rest) % 16 == rest && group * 16 + rest <= yHeight - 1
  {
  }

  lemma V1OddRowFetch(width: nat, height: nat, yHeight: nat, plane: PlaneId, x: nat, y: nat, group: nat, rest: nat)
    requires Padded(V1, width, height, yHeight, 0) && x < width && y < height && y % 2 == 1
    requires group == y / 2 / 8 && rest == (y / 2 - group * 8) + (if plane.V? then 8 else 0)
    requires group * 16 + rest <= yHeight - 1
    ensures ChromaV1Fetch(Whole(width, height), plane, yHeight, x, y) == FromY(x, group * 16 + rest)
  {
  }

  lemma V1AuxiliaryRow(frame: Frame444, nv21: bool, yHeight: nat, plane: PlaneId, x: nat, group: nat, inGroup: nat)
    requires inGroup < 8
    ensures AuxiliaryV1(frame, nv21, yHeight).y(x, group * 16 + (inGroup + (if plane.V? then 8 else 0)))
         == Plane(frame, plane)(x, group * 16 + 2 * inGroup + 1)
  {
    var rest := inGroup + (if plane.V? then 8 else 0);
    assert (group * 16 + rest) / 16 == group && (group * 16 + rest) % 16 == rest;
  }

  lemma V1OddRowAt(frame: Frame444, nv21: bool, yHeight: nat, plane: PlaneId, x: nat, y: nat, group: nat, inGroup: nat,
                   fetch: Fetch, before: Byte)
    requires inGroup < 8 && y == group * 16 + 2 * inGroup + 1
    requires fetch == FromY(x, group * 16 + (inGroup + (if plane.V? then 8 else 0)))
    ensures Read(AuxiliaryV1(frame, nv21, yHeight), fetch, before) == Plane(frame, plane)(x, y)
  {
    V1AuxiliaryRow(frame, nv21, yHeight, plane, x, group, inGroup);
  }

  lemma V1OddRowReadsOriginal(frame: Frame444, nv21: bool, width: nat, height: nat, yHeight: nat, plane: PlaneId,
                              x: nat, y: nat, before: Byte)
    requires Padded(V1, width, height, yHeight, 0) && x < width && y < height && y % 2 == 1
    ensures var fetch := ChromaV1Fetch(Whole(width, height), plane, yHeight, x, y);
            fetch.FromY? && Read(AuxiliaryV1(frame, nv21, yHeight), fetch, before) == Plane(frame, plane)(x, y)
  {
    var group, inGroup := y / 2 / 8, y / 2 - y / 2 / 8 * 8;
    var rest := inGroup + (if plane.V? then 8 else 0);
    OddRowAddress(y);
    SixteenGroups(group, rest, yHeight);
    V1OddRowFetch(width, height, yHeight, plane, x, y, group, rest);
    V1OddRowAt(frame, nv21, yHeight, plane, x, y, group, inGroup, FromY(x, group * 16 + rest), before);
  }

  lemma TwiceHalf(n: nat)
    ensures n % 2 == 0 ==> 2 * (n / 2) == n
    ensures n % 2 == 1 ==> 2 * (n / 2) + 1 == n
  {
  }

  lemma V1ReadsOriginal(frame: Frame444, nv21: bool, width: nat, height: nat, yHeight: nat, plane: PlaneId, x: nat,
                        y: nat, before: Byte)
    requires Padded(V1, width, height, yHeight, 0) && x < width && y < height
    ensures var fetch := ChromaV1Fetch(Whole(width, height), plane, yHeight, x, y);
            && (fetch == Keep <==> BothEven(x, y))
            && (!BothEven(x, y) ==> Read(AuxiliaryV1(frame, nv21, yHeight), fetch, before) == Plane(frame, plane)(x, y))
  {
    if y % 2 == 1 {
      V1OddRowReadsOriginal(frame, nv21, width, height, yHeight, plane, x, y, before);
    } else {
      EvenIsTwiceItsHalf(width);
      EvenIsTwiceItsHalf(height);
      var fetch := ChromaV1Fetch(Whole(width, height), plane, yHeight, x, y);
      if x % 2 == 1 {
        assert fetch == FromUv(plane.V?, x / 2, y / 2);
        TwiceHalf(x);
        TwiceHalf(y);
        assert AuxiliaryV1(frame, nv21, yHeight).uv(x / 2, y / 2) == Pair(nv21, frame.u(x, y), frame.v(x, y));
      }
    }
  }

  lemma HalfBelow(n: nat, limit: nat)
    requires n < limit && limit % 4 == 0
    ensures n / 2 < limit / 2 && n / 4 < limit / 4
  {
  }

  lemma FourTimesQuarter(n: nat)
    ensures n % 4 == 0 ==> 4 * (n / 4) == n
    ensures n % 4 == 2 ==> 4 * (n / 4) + 2 == n
    ensures n % 2 == 0 <==> n % 4 == 0 || n % 4 == 2
  {
  }

  lemma V2OddColumnReadsOriginal(frame: Frame444, nv21: bool, yHeight: nat, alignedWidth: nat, x: nat, y: nat)
    requires x < alignedWidth && alignedWidth % 4 == 0 && x % 2 == 1
    ensures AuxiliaryV2(frame, nv21, yHeight, alignedWidth).y(x / 2, y) == frame.u(x, y)
    ensures AuxiliaryV2(frame, nv21, yHeight, alignedWidth).y(x / 2 + alignedWidth / 2, y) == frame.v(x, y)
  {
    HalfBelow(x, alignedWidth);
    TwiceHalf(x);
  }

  lemma V2OddRowReadsOriginal(frame: Frame444, nv21: bool, yHeight: nat, alignedWidth: nat, x: nat, y: nat)
    requires x < alignedWidth && alignedWidth % 4 == 0 && y % 2 == 1
    ensures var uv := AuxiliaryV2(frame, nv21, yHeight, alignedWidth).uv;
            && uv(x / 4, y / 2) == Pair(nv21, frame.u(4 * (x / 4), y), frame.u(4 * (x / 4) + 2, y))
            && uv(x / 4 + alignedWidth / 4, y / 2) == Pair(nv21, frame.v(4 * (x / 4), y), frame.v(4 * (x / 4) + 2, y))
  {
    HalfBelow(x, alignedWidth);
    TwiceHalf(y);
  }

  /** The whole-surface form of the AVC444v2 address. */
  lemma V2WholeFetch(width: nat, height: nat, alignedWidth: nat, plane: PlaneId, x: nat, y: nat)
    requires x < width && y < height
    ensures ChromaV2Fetch(Whole(width, height), plane, alignedWidth, x, y) ==
            if x % 2 == 1 then FromY(x / 2 + (if plane.V? then alignedWidth / 2 else 0), y)
            else if y % 2 == 1 then FromUv(x % 4 == 2, x / 4 + (if plane.V? then alignedWidth / 4 else 0), y / 2)
            else Keep
  {
    FourTimesQuarter(x);
  }

  lemma V2ColumnRead(frame: Frame444, nv21: bool, yHeight: nat, alignedWidth: nat, plane: PlaneId, x: nat, y: nat,
                     before: Byte)
    requires x < alignedWidth && alignedWidth % 4 == 0 && x % 2 == 1
    ensures Read(AuxiliaryV2(frame, nv21, yHeight, alignedWidth),
                 FromY(x / 2 + (if plane.V? then alignedWidth / 2 else 0), y), before)
            == Plane(frame, plane)(x, y)
  {
    V2OddColumnReadsOriginal(frame, nv21, yHeight, alignedWidth, x, y);
  }

  lemma V2RowRead(frame: Frame444, nv21: bool, yHeight: nat, alignedWidth: nat, plane: PlaneId, x: nat, y: nat,
                  before: Byte)
    requires x < alignedWidth && alignedWidth % 4 == 0 && y % 2 == 1 && x % 2 == 0
    ensures Read(AuxiliaryV2(frame, nv21, yHeight, alignedWidth),
                 FromUv(x % 4 == 2, x / 4 + (if plane.V? then alignedWidth / 4 else 0), y / 2), before)
            == Plane(frame, plane)(x, y)
  {
    V2OddRowReadsOriginal(frame, nv21, yHeight, alignedWidth, x, y);
    FourTimesQuarter(x);
    var column := x / 4 + (if plane.V? then alignedWidth / 4 else 0);
    var pair := AuxiliaryV2(frame, nv21, yHeight, alignedWidth).uv(column, y / 2);
    assert pair == Pair(nv21, Plane(frame, plane)(4 * (x / 4), y), Plane(frame, plane)(4 * (x / 4) + 2, y));
  }

  lemma V2ReadsOriginal(frame: Frame444, nv21: bool, width: nat, height: nat, yHeight: nat, alignedWidth: nat,
                        plane: PlaneId, x: nat, y: nat, fetch: Fetch, before: Byte)
    requires Padded(V2, width, height, yHeight, alignedWidth) && x < width && y < height
    requires fetch == ChromaV2Fetch(Whole(width, height), plane, alignedWidth, x, y)
    ensures fetch == Keep <==> BothEven(x, y)
    ensures !BothEven(x, y) ==>
              Read(AuxiliaryV2(frame, nv21, yHeight, alignedWidth), fetch, before) == Plane(frame, plane)(x, y)
  {
    V2WholeFetch(width, height, alignedWidth, plane, x, y);
    if x % 2 == 1 {
      V2ColumnRead(frame, nv21, yHeight, alignedWidth, plane, x, y, before);
    } else if y % 2 == 1 {
      V2RowRead(frame, nv21, yHeight, alignedWidth, plane, x, y, before);
    }
  }

  lemma LumaReadsAverage(frame: Frame444, nv21: bool, width: nat, height: nat, yHeight: nat, alignedWidth: nat,
                         plane: PlaneId, x: nat, y: nat, before: Byte)
    requires x < width && y < height && BothEven(x, y)
    ensures Read(MainView(frame, nv21, yHeight, alignedWidth), LumaUvFetch(Whole(width, height), plane, x, y),
                 before) ==
            Average(Plane(frame, plane), x, y)
  {
    TwiceHalf(x);
    TwiceHalf(y);
    assert LumaUvFetch(Whole(width, height), plane, x, y) == FromUv(plane.V?, x / 2, y / 2);
    assert MainView(frame, nv21, yHeight, alignedWidth).uv(x / 2, y / 2) ==
      Pair(nv21, Average(frame.u, x, y), Average(frame.v, x, y));
  }

  /** What the planes hold for one transmitted frame. */
  function Combined(frame: Frame444, plane: PlaneId, x: nat, y: nat): Byte {
    if BothEven(x, y) then Average(Plane(frame, plane), x, y) else Plane(frame, plane)(x, y)
  }

  /** Combining the two views gives back Y everywhere, and U and V at every position that is not even in both
      coordinates; there the planes hold the average of the block. */
  lemma CombinedPlanes(codec: Codec, frame: Frame444, nv21: bool, width: nat, height: nat, yHeight: nat,
                       alignedWidth: nat,
                       plane: PlaneId, x: nat, y: nat, before: Byte)
    requires Padded(codec, width, height, yHeight, alignedWidth) && x < width && y < height
    ensures var updates := Transmit(codec, frame, nv21, width, height, yHeight, alignedWidth);
            && AfterUpdateY(updates[1], x, y, AfterUpdateY(updates[0], x, y, before)) == frame.y(x, y)
            && HaveRows(updates)
            && AfterUpdates(updates, plane, x, y, before) == Combined(frame, plane, x, y)
  {
    var updates := Transmit(codec, frame, nv21, width, height, yHeight, alignedWidth);
    var whole := Whole(width, height);
    assert LastRect([whole], x, y) == [whole];
    var first := AfterUpdate(updates[0], plane, x, y, before);
    assert updates[..1] == [updates[0]] && [updates[0]][..0] == [];
    assert AfterUpdates(updates, plane, x, y, before) == AfterUpdate(updates[1], plane, x, y, first);
    if codec.V1? {
      V1ReadsOriginal(frame, nv21, width, height, yHeight, plane, x, y, first);
    } else {
      V2ReadsOriginal(frame, nv21, width, height, yHeight, alignedWidth, plane, x, y,
                      ChromaV2Fetch(whole, plane, alignedWidth, x, y), first);
    }
    if BothEven(x, y) {
      LumaReadsAverage(frame, nv21, width, height, yHeight, alignedWidth, plane, x, y, before);
    }
  }

  lemma MainViewHoldsAverages(frame: Frame444, nv21: bool, yHeight: nat, alignedWidth: nat, plane: PlaneId, cx: nat,
                              cy: nat)
    ensures BaseChroma(MainView(frame, nv21, yHeight, alignedWidth), plane, cx, cy) ==
            Average(Plane(frame, plane), 2 * cx, 2 * cy)
  {
    assert MainView(frame, nv21, yHeight, alignedWidth).uv(cx, cy) ==
           Pair(nv21, Average(frame.u, 2 * cx, 2 * cy), Average(frame.v, 2 * cx, 2 * cy));
  }

  lemma AverageIsRoundedDown(p: Samples, x: nat, y: nat)
    ensures 4 * Average(p, x, y) <= p(x, y) + p(x + 1, y) + p(x, y + 1) + p(x + 1, y + 1) < 4 * Average(p, x, y) + 4
  {
  }

  /** A main view alone, as after a luma-only update: U and V hold at every position the average, rounded down, of the
      2x2 block that the position lies in. */
  lemma LumaAloneIsBlockAverage(frame: Frame444, nv21: bool, rects: seq<Rect>, width: nat, height: nat, yHeight: nat,
                                alignedWidth: nat, plane: PlaneId, x: nat, y: nat, before: Byte, cx: nat, cy: nat)
    requires WellFormed(Luma(MainView(frame, nv21, yHeight, alignedWidth), rects), width, height)
    requires IsBlockOf(cx, cy, x, y) && exists i :: 0 <= i < |rects| && Contains(rects[i], x, y)
    ensures var p, a := Plane(frame, plane), AfterUpdate(Luma(MainView(frame, nv21, yHeight, alignedWidth), rects),
                                                         plane, x, y, before);
            var sum := p(2 * cx, 2 * cy) + p(2 * cx + 1, 2 * cy) + p(2 * cx, 2 * cy + 1) + p(2 * cx + 1, 2 * cy + 1);
            4 * a <= sum < 4 * a + 4
  {
    LumaIsBaseChroma(Luma(MainView(frame, nv21, yHeight, alignedWidth), rects), plane, width, height, x, y, before,
                     cx, cy);
    MainViewHoldsAverages(frame, nv21, yHeight, alignedWidth, plane, cx, cy);
    AverageIsRoundedDown(Plane(frame, plane), 2 * cx, 2 * cy);
  }

  // ---- The present shader's average undo ----

  function Abs(n: int): nat { if n < 0 then -n else n }

  function ClampByte(n: int): Byte { if n < 0 then 0 else if n > 255 then 255 else n }

  function ConditionalClipAverage(value: int, original: Byte): Byte {
    if Abs(ClampByte(value) - original) < 30 then original else ClampByte(value)
  }

  function AverageUndo(p: Samples, width: nat, height: nat, x: nat, y: nat): Byte {
    if x % 2 == 0 && y % 2 == 0 && x + 1 < width && y + 1 < height then
      ConditionalClipAverage(4 * p(x, y) - (p(x + 1, y) + p(x, y + 1) + p(x + 1, y + 1)), p(x, y))
    else p(x, y)
  }

  lemma UndoIsNear(a: Byte, b: Byte, c: Byte, d: Byte)
    ensures var average := (a + b + c + d) / 4;
            Abs(ConditionalClipAverage(4 * average - (b + c + d), average) - a) <= 32
  {
  }

  /** The planes as received over the two views. */
  ghost predicate Received(codec: Codec, frame: Frame444, nv21: bool, width: nat, height: nat, yHeight: nat,
                           alignedWidth: nat,
                           plane: PlaneId, before: Samples, received: Samples)
  {
    var updates := Transmit(codec, frame, nv21, width, height, yHeight, alignedWidth);
    && HaveRows(updates)
    && forall i: nat, j: nat | i < width && j < height ::
         received(i, j) == AfterUpdates(updates, plane, i, j, before(i, j))
  }

  lemma ReceivedIsCombined(codec: Codec, frame: Frame444, nv21: bool, width: nat, height: nat, yHeight: nat,
                           alignedWidth: nat,
                           plane: PlaneId, before: Samples, received: Samples, x: nat, y: nat)
    requires Padded(codec, width, height, yHeight, alignedWidth) && x < width && y < height
    requires Received(codec, frame, nv21, width, height, yHeight, alignedWidth, plane, before, received)
    ensures received(x, y) == Combined(frame, plane, x, y)
  {
    CombinedPlanes(codec, frame, nv21, width, height, yHeight, alignedWidth, plane, x, y, before(x, y));
  }

  lemma UndoOfCombined(p: Samples, received: Samples, width: nat, height: nat, x: nat, y: nat)
    requires BothEven(x, y) && x + 1 < width && y + 1 < height
    requires received(x, y) == Average(p, x, y)
    requires received(x + 1, y) == p(x + 1, y) && received(x, y + 1) == p(x, y + 1)
    requires received(x + 1, y + 1) == p(x + 1, y + 1)
    ensures Abs(AverageUndo(received, width, height, x, y) - p(x, y)) <= 32
  {
    UndoIsNear(p(x, y), p(x + 1, y), p(x, y + 1), p(x + 1, y + 1));
  }

  /** What the present shader needs to know of the received plane around a place. */
  predicate BlockIs(p: Samples, received: Samples, x: nat, y: nat) {
    if BothEven(x, y) then
      && received(x, y) == Average(p, x, y) && received(x + 1, y) == p(x + 1, y)
      && received(x, y + 1) == p(x, y + 1) && received(x + 1, y + 1) == p(x + 1, y + 1)
    else received(x, y) == p(x, y)
  }

  ghost predicate CombinedEverywhere(frame: Frame444, plane: PlaneId, width: nat, height: nat, received: Samples) {
    forall i: nat, j: nat | i < width && j < height :: received(i, j) == Combined(frame, plane, i, j)
  }

  lemma ReceivedEverywhere(codec: Codec, frame: Frame444, nv21: bool, width: nat, height: nat, yHeight: nat,
                           alignedWidth: nat, plane: PlaneId, before: Samples, received: Samples)
    requires Padded(codec, width, height, yHeight, alignedWidth)
    requires Received(codec, frame, nv21, width, height, yHeight, alignedWidth, plane, before, received)
    ensures CombinedEverywhere(frame, plane, width, height, received)
  {
    forall i: nat, j: nat | i < width && j < height ensures received(i, j) == Combined(frame, plane, i, j) {
      ReceivedIsCombined(codec, frame, nv21, width, height, yHeight, alignedWidth, plane, before, received, i, j);
    }
  }

  lemma OddNeighbours(x: nat, y: nat, width: nat, height: nat)
    requires BothEven(x, y) && x < width && y < height && width % 2 == 0 && height % 2 == 0
    ensures x + 1 < width && y + 1 < height
    ensures !BothEven(x + 1, y) && !BothEven(x, y + 1) && !BothEven(x + 1, y + 1)
  {
  }

  lemma ReceivedBlock(frame: Frame444, plane: PlaneId, width: nat, height: nat, received: Samples, x: nat, y: nat)
    requires CombinedEverywhere(frame, plane, width, height, received)
    requires x < width && y < height && width % 2 == 0 && height % 2 == 0
    ensures BlockIs(Plane(frame, plane), received, x, y)
  {
    if BothEven(x, y) {
      OddNeighbours(x, y, width, height);
    }
  }

  /** At most 32 levels off where both coordinates are even, exact elsewhere. */
  predicate IsNear(shown: Byte, original: Byte, x: nat, y: nat) {
    if BothEven(x, y) then Abs(shown as int - original as int) <= 32 else shown == original
  }

  lemma ShownIsNear(p: Samples, received: Samples, width: nat, height: nat, x: nat, y: nat)
    requires x < width && y < height && width % 2 == 0 && height % 2 == 0 && BlockIs(p, received, x, y)
    ensures IsNear(AverageUndo(received, width, height, x, y), p(x, y), x, y)
  {
    if BothEven(x, y) {
      UndoOfCombined(p, received, width, height, x, y);
    }
  }

  /** The whole chain: what the present shader samples differs from the original chroma nowhere except at the
      both-even positions, and there by at most 32 levels. */
  lemma RoundTrip(codec: Codec, frame: Frame444, nv21: bool, width: nat, height: nat, yHeight: nat, alignedWidth: nat,
                  plane: PlaneId, before: Samples, received: Samples, x: nat, y: nat)
    requires Padded(codec, width, height, yHeight, alignedWidth) && x < width && y < height
    requires Received(codec, frame, nv21, width, height, yHeight, alignedWidth, plane, before, received)
    ensures IsNear(AverageUndo(received, width, height, x, y), Plane(frame, plane)(x, y), x, y)
  {
    ReceivedEverywhere(codec, frame, nv21, width, height, yHeight, alignedWidth, plane, before, received);
    ReceivedBlock(frame, plane, width, height, received, x, y);
    ShownIsNear(Plane(frame, plane), received, width, height, x, y);
  }

  /** 32 levels is the exact bound: this block loses all of it. */
  lemma UndoBoundIsReached()
    ensures var average := (200 + 158 + 158 + 159) / 4;
            Abs(ConditionalClipAverage(4 * average - (158 + 158 + 159), average) - 200) == 32
  {
  }
}
