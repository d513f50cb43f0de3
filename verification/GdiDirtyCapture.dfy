/** Capturing the dirty box of a frame from GDI's invalid regions (freerdp/freerdp_gdi_bridge.cpp). */
module GdiDirtyCapture {
  import opened FrameUtils

  /** A region as GDI keeps it: signed 32-bit position and size, or marked null. */
  datatype GdiRegion = GdiRegion(isNull: bool, x: int, y: int, w: int, h: int)

  predicate IsInt32(n: int) { -0x8000_0000 <= n < 0x8000_0000 }

  predicate FitsInt32(region: GdiRegion) {
    IsInt32(region.x) && IsInt32(region.y) && IsInt32(region.w) && IsInt32(region.h)
  }

  /** The part of a region inside the frame, as a box; invalid when nothing is left. */
  function Clip(region: GdiRegion, frameWidth: U32, frameHeight: U32): DirtyFrameStats {
    var left, top := Max(0, region.x), Max(0, region.y);
    var right, bottom := Min(frameWidth, region.x + region.w), Min(frameHeight, region.y + region.h);
    if region.isNull || region.w <= 0 || region.h <= 0 || right <= left || bottom <= top then NO_DIRTY
    else DirtyFrameStats(true, 1, left, top, right - left, bottom - top, 0)
  }

  /** A pixel of a region: null regions have none, and neither have those of no or negative size. */
  predicate RegionHas(region: GdiRegion, px: int, py: int) {
    !region.isNull && region.x <= px < region.x + region.w && region.y <= py < region.y + region.h
  }

  predicate IsFramePixel(frameWidth: U32, frameHeight: U32, px: int, py: int) {
    0 <= px < frameWidth && 0 <= py < frameHeight
  }

  /** The clipped box has exactly the pixels of the region that are in the frame, and is valid exactly if there are
      any. */
  lemma ClipHasThePixels(region: GdiRegion, frameWidth: U32, frameHeight: U32, px: int, py: int)
    ensures var box := Clip(region, frameWidth, frameHeight);
            && (Covers(box, px, py) <==> RegionHas(region, px, py) && IsFramePixel(frameWidth, frameHeight, px, py))
            && (box.valid ==> Covers(box, box.x, box.y))
  {
  }

  /** The box covers every pixel of the frame that is in one of the regions, lies within every box that does, and is
      valid exactly if there is such a pixel. */
  ghost predicate IsHullOfPixels(box: DirtyFrameStats, regions: seq<GdiRegion>, frameWidth: U32, frameHeight: U32) {
    && CoversPixels(box, regions, frameWidth, frameHeight)
    && (forall other: DirtyFrameStats | CoversPixels(other, regions, frameWidth, frameHeight) :: Within(box, other))
    && (box.valid <==> exists i, px, py :: 0 <= i < |regions| && IsFramePixel(frameWidth, frameHeight, px, py)
                                           && RegionHas(regions[i], px, py))
  }

  ghost predicate CoversPixels(box: DirtyFrameStats, regions: seq<GdiRegion>, frameWidth: U32, frameHeight: U32) {
    forall i, px, py | 0 <= i < |regions| && IsFramePixel(frameWidth, frameHeight, px, py)
                       && RegionHas(regions[i], px, py) :: Covers(box, px, py)
  }

  lemma HullOfClipsIsHullOfPixels(box: DirtyFrameStats, regions: seq<GdiRegion>, frameWidth: U32, frameHeight: U32)
    requires IsHull(box, Clips(regions, frameWidth, frameHeight))
    requires box.valid <==> exists i | 0 <= i < |regions| :: Clips(regions, frameWidth, frameHeight)[i].valid
    ensures IsHullOfPixels(box, regions, frameWidth, frameHeight)
  {
    var boxes := Clips(regions, frameWidth, frameHeight);
    forall i, px, py | 0 <= i < |regions| && IsFramePixel(frameWidth, frameHeight, px, py)
                       && RegionHas(regions[i], px, py)
      ensures Covers(box, px, py) && boxes[i].valid
    {
      ClipHasThePixels(regions[i], frameWidth, frameHeight, px, py);
      assert Within(boxes[i], box);
    }
    forall other: DirtyFrameStats | CoversPixels(other, regions, frameWidth, frameHeight) ensures Within(box, other) {
      forall i | 0 <= i < |boxes| ensures Within(boxes[i], other) {
        forall px, py | Covers(boxes[i], px, py) ensures Covers(other, px, py) {
          ClipHasThePixels(regions[i], frameWidth, frameHeight, px, py);
        }
      }
    }
    if box.valid {
      var i :| 0 <= i < |regions| && boxes[i].valid;
      ClipHasThePixels(regions[i], frameWidth, frameHeight, boxes[i].x, boxes[i].y);
    }
  }

  function Clips(regions: seq<GdiRegion>, frameWidth: U32, frameHeight: U32): (boxes: seq<DirtyFrameStats>)
    ensures |boxes| == |regions|
    ensures forall i | 0 <= i < |boxes| :: boxes[i] == Clip(regions[i], frameWidth, frameHeight)
    ensures forall i | 0 <= i < |boxes| :: InFrame(boxes[i], frameWidth, frameHeight) || !boxes[i].valid
  {
    seq(|regions|, i requires 0 <= i < |regions| => Clip(regions[i], frameWidth, frameHeight))
  }

  function CountValid(boxes: seq<DirtyFrameStats>): nat {
    if boxes == [] then 0 else CountValid(boxes[..|boxes| - 1]) + (if boxes[|boxes| - 1].valid then 1 else 0)
  }

  /** The summed areas of the valid boxes; overlaps count more than once. */
  function TotalArea(boxes: seq<DirtyFrameStats>): nat {
    if boxes == [] then 0
    else TotalArea(boxes[..|boxes| - 1]) + AreaOf(boxes[|boxes| - 1])
  }

  function AreaOf(box: DirtyFrameStats): nat {
    if box.valid then Area(box.x, box.y, box.x + box.width, box.y + box.height) else 0
  }

  /** Adding up modulo 2^64. */
  lemma WrappedSum(before: nat, more: nat)
    ensures (before % U64_LIMIT + more) % U64_LIMIT == (before + more) % U64_LIMIT
  {
    assert before + more == before / U64_LIMIT * U64_LIMIT + (before % U64_LIMIT + more);
  }

  function Wrapped(area: nat): nat { area % U64_LIMIT }

  function Area(left: nat, top: nat, right: nat, bottom: nat): nat
    requires left <= right && top <= bottom
  {
    (right - left) * (bottom - top)
  }

  lemma OneMoreArea(boxes: seq<DirtyFrameStats>, box: DirtyFrameStats)
    ensures Wrapped(TotalArea(boxes + [box])) == Wrapped(Wrapped(TotalArea(boxes)) + AreaOf(box))
  {
    assert (boxes + [box])[..|boxes|] == boxes;
    WrappedSum(TotalArea(boxes), AreaOf(box));
  }

  predicate SameBox(a: DirtyFrameStats, b: DirtyFrameStats) {
    a.valid == b.valid && (a.valid ==> a.x == b.x && a.y == b.y && a.width == b.width && a.height == b.height)
  }

  lemma SameBoxSameHull(a: DirtyFrameStats, b: DirtyFrameStats, boxes: seq<DirtyFrameStats>)
    requires SameBox(a, b) && IsHull(a, boxes)
    ensures IsHull(b, boxes)
  {
    assert Within(a, b) && Within(b, a);
    forall box: DirtyFrameStats | forall i | 0 <= i < |boxes| :: Within(boxes[i], box)
      ensures Within(b, box)
    {
      assert Within(a, box);
    }
  }

  /** The share of the frame that a summed area is, as far as 64 bits go. */
  function Share(area: nat, frameWidth: nat, frameHeight: nat): nat
    requires 0 < frameWidth && 0 < frameHeight
  {
    AreaIsPositive(frameWidth, frameHeight);
    AreaPermille(Wrapped(area), frameWidth * frameHeight)
  }

  /** It is the thousandths of the frame that the area covers, rounded, as long as the sums fit 64 bits; more than the
      frame counts as the whole frame. */
  lemma ShareIsRounded(area: nat, frameWidth: nat, frameHeight: nat, frameArea: nat)
    requires 0 < frameWidth && 0 < frameHeight && frameArea == frameWidth * frameHeight < 0x40_0000_0000_0000
    requires area < 0x1_0000_0000_0000_0000
    ensures IsRoundedShare(Share(area, frameWidth, frameHeight), if area < frameArea then area else frameArea,
                           frameArea)
  {
    AreaIsPositive(frameWidth, frameHeight);
    assert Wrapped(area) == area;
    PermilleIsRoundedShare(area, frameArea);
  }

  /** The first `width` columns of a box. */
  ghost function Columns(box: DirtyFrameStats, width: nat): set<(nat, nat)> {
    set x: nat, y: nat | box.x <= x < box.x + width && box.y <= y < box.y + box.height :: (x, y)
  }

  ghost function Column(x: nat, top: nat, height: nat): set<(nat, nat)> {
    set y: nat | top <= y < top + height :: (x, y)
  }

  lemma {:induction false} ColumnHas(x: nat, top: nat, height: nat)
    ensures |Column(x, top, height)| == height
  {
    if height == 0 {
      assert Column(x, top, height) == {};
    } else {
      ColumnHas(x, top, height - 1);
      assert Column(x, top, height) == Column(x, top, height - 1) + {(x, top + height - 1)};
    }
  }

  lemma {:induction false} ColumnsHave(box: DirtyFrameStats, width: nat)
    ensures |Columns(box, width)| == width * box.height
  {
    if width == 0 {
      assert Columns(box, width) == {};
    } else {
      var last := box.x + width - 1;
      ColumnsHave(box, width - 1);
      ColumnHas(last, box.y, box.height);
      assert Columns(box, width) == Columns(box, width - 1) + Column(last, box.y, box.height);
      assert Columns(box, width - 1) !! Column(last, box.y, box.height);
      assert width * box.height == (width - 1) * box.height + box.height;
    }
  }

  /** The pixels that a box covers. */
  ghost function PixelsOf(box: DirtyFrameStats): set<(nat, nat)> {
    set x: nat, y: nat | box.x <= x < box.x + box.width && box.y <= y < box.y + box.height && Covers(box, x, y) ::
      (x, y)
  }

  /** The area of a box is the number of its pixels. */
  lemma AreaCountsPixels(box: DirtyFrameStats)
    ensures AreaOf(box) == |PixelsOf(box)|
  {
    if box.valid {
      ColumnsHave(box, box.width);
      assert PixelsOf(box) == Columns(box, box.width);
    } else {
      assert PixelsOf(box) == {};
    }
  }

  /** The summed area adds up the pixels of every box, and the count counts the boxes that have a place in the frame. */
  lemma TotalsAddUp(boxes: seq<DirtyFrameStats>, box: DirtyFrameStats)
    ensures TotalArea([]) == 0 && CountValid([]) == 0
    ensures TotalArea(boxes + [box]) == TotalArea(boxes) + |PixelsOf(box)|
    ensures CountValid(boxes + [box]) == CountValid(boxes) + if box.valid then 1 else 0
  {
    assert (boxes + [box])[..|boxes|] == boxes;
    AreaCountsPixels(box);
  }

  datatype Bounds = Bounds(minX: nat, minY: nat, maxX: nat, maxY: nat, dirtyArea: nat, rectCount: nat)

  predicate Describes(b: Bounds, boxes: seq<DirtyFrameStats>, frameWidth: U32, frameHeight: U32) {
    var all := MergeAll(boxes, frameWidth, frameHeight);
    && b.rectCount == CountValid(boxes) && b.dirtyArea == Wrapped(TotalArea(boxes))
    && (b.rectCount == 0 <==> !all.valid)
    && (b.rectCount == 0 ==> b.minX == frameWidth && b.minY == frameHeight && b.maxX == 0 && b.maxY == 0)
    && (b.rectCount > 0 ==> InFrame(all, frameWidth, frameHeight)
                            && b.minX == all.x && b.minY == all.y
                            && b.maxX == all.x + all.width && b.maxY == all.y + all.height)
  }

  lemma OneMoreBox(boxes: seq<DirtyFrameStats>, box: DirtyFrameStats, frameWidth: U32, frameHeight: U32)
    ensures CountValid(boxes + [box]) == CountValid(boxes) + (if box.valid then 1 else 0)
    ensures MergeAll(boxes + [box], frameWidth, frameHeight) ==
            MergeDirtyStats(MergeAll(boxes, frameWidth, frameHeight), box, frameWidth, frameHeight)
    ensures Wrapped(TotalArea(boxes + [box])) == Wrapped(Wrapped(TotalArea(boxes)) + AreaOf(box))
  {
    assert (boxes + [box])[..|boxes|] == boxes;
    OneMoreArea(boxes, box);
  }

  /** The accumulator after one more clipped region. */
  function Added(b: Bounds, box: DirtyFrameStats): Bounds {
    if !box.valid then b
    else Bounds(Min(b.minX, box.x), Min(b.minY, box.y), Max(b.maxX, box.x + box.width), Max(b.maxY, box.y + box.height),
                Wrapped(b.dirtyArea + AreaOf(box)), b.rectCount + 1)
  }

  function Accumulated(boxes: seq<DirtyFrameStats>, frameWidth: U32, frameHeight: U32): Bounds {
    if boxes == [] then Bounds(frameWidth, frameHeight, 0, 0, 0, 0)
    else Added(Accumulated(boxes[..|boxes| - 1], frameWidth, frameHeight), boxes[|boxes| - 1])
  }

  lemma DescribesOneMore(b: Bounds, boxes: seq<DirtyFrameStats>, box: DirtyFrameStats,
                         frameWidth: U32, frameHeight: U32)
    requires Describes(b, boxes, frameWidth, frameHeight)
    requires !box.valid || InFrame(box, frameWidth, frameHeight)
    ensures Describes(Added(b, box), boxes + [box], frameWidth, frameHeight)
  {
    OneMoreBox(boxes, box, frameWidth, frameHeight);
  }

  /** What was accumulated are the bounds of the merged box, the number of boxes that were valid, and their summed
      areas as far as 64 bits go. */
  lemma {:induction false} AccumulatedDescribes(boxes: seq<DirtyFrameStats>, frameWidth: U32, frameHeight: U32)
    requires forall i | 0 <= i < |boxes| :: InFrame(boxes[i], frameWidth, frameHeight) || !boxes[i].valid
    ensures Describes(Accumulated(boxes, frameWidth, frameHeight), boxes, frameWidth, frameHeight)
  {
    if boxes == [] {
      assert Wrapped(0) == 0;
    } else {
      var init, last := boxes[..|boxes| - 1], boxes[|boxes| - 1];
      AccumulatedDescribes(init, frameWidth, frameHeight);
      DescribesOneMore(Accumulated(init, frameWidth, frameHeight), init, last, frameWidth, frameHeight);
      assert init + [last] == boxes;
    }
  }

  class DirtyAccumulator {
    var minX: nat
    var minY: nat
    var maxX: nat
    var maxY: nat
    var dirtyArea: nat
    var rectCount: nat

    ghost function Now(): Bounds
      reads this
    {
      Bounds(minX, minY, maxX, maxY, dirtyArea, rectCount)
    }

    constructor (frameWidth: U32, frameHeight: U32)
      ensures Now() == Bounds(frameWidth, frameHeight, 0, 0, 0, 0)
    {
      minX, minY, maxX, maxY, dirtyArea, rectCount := frameWidth, frameHeight, 0, 0, 0, 0;
    }

    method AddRegion(region: GdiRegion, frameWidth: U32, frameHeight: U32)
      requires FitsInt32(region)
      modifies this
      ensures Now() == Added(old(Now()), Clip(region, frameWidth, frameHeight))
    {
      if region.isNull || region.w <= 0 || region.h <= 0 {
        return;
      }
      var left, top := Max(0, region.x), Max(0, region.y);
      var right, bottom := Min(frameWidth, region.x + region.w), Min(frameHeight, region.y + region.h);
      if right <= left || bottom <= top {
        return;
      }
      minX := Min(minX, left);
      minY := Min(minY, top);
      maxX := Max(maxX, right);
      maxY := Max(maxY, bottom);
      dirtyArea := Wrapped(dirtyArea + Area(left, top, right, bottom));
      rectCount := rectCount + 1;
    }
  }

  /** The captured box: invalid without a window or a frame and when every region clips to nothing, else the least
      box containing every clipped region, inside the frame, with at most 1000 permille of its area. */
  method CaptureGdiDirtyStats(hasWindow: bool, gdiWidth: int, gdiHeight: int,
                              cinvalid: seq<GdiRegion>, invalid: GdiRegion)
    returns (stats: DirtyFrameStats)
    requires IsInt32(gdiWidth) && IsInt32(gdiHeight) && |cinvalid| < 0x8000_0000
    requires FitsInt32(invalid) && forall i | 0 <= i < |cinvalid| :: FitsInt32(cinvalid[i])
    ensures !hasWindow || gdiWidth <= 0 || gdiHeight <= 0 ==> stats == NO_DIRTY
    ensures hasWindow && gdiWidth > 0 && gdiHeight > 0 ==>
              var boxes := Clips(if |cinvalid| > 0 then cinvalid else [invalid], gdiWidth, gdiHeight);
              && IsHullOfPixels(stats, if |cinvalid| > 0 then cinvalid else [invalid], gdiWidth, gdiHeight)
              && IsHull(stats, boxes) && stats.rectCount == CountValid(boxes)
              && (stats.valid <==> exists i | 0 <= i < |boxes| :: boxes[i].valid)
              && (stats.valid ==>
                    && InFrame(stats, gdiWidth, gdiHeight) && stats.areaPermille <= 1000
                    && stats.areaPermille == Share(TotalArea(boxes), gdiWidth, gdiHeight))
  {
    if !hasWindow || gdiWidth <= 0 || gdiHeight <= 0 {
      return NO_DIRTY;
    }
    var regions := if |cinvalid| > 0 then cinvalid else [invalid];
    ghost var boxes := Clips(regions, gdiWidth, gdiHeight);
    var bounds := Collect(regions, gdiWidth, gdiHeight, boxes);
    CountIsBounded(boxes);
    AccumulatedDescribes(boxes, gdiWidth, gdiHeight);
    stats := Finish(bounds, gdiWidth, gdiHeight, boxes);
    HullOfClipsIsHullOfPixels(stats, regions, gdiWidth, gdiHeight);
  }

  /** The loop over the regions. */
  method Collect(regions: seq<GdiRegion>, frameWidth: U32, frameHeight: U32, ghost boxes: seq<DirtyFrameStats>)
    returns (bounds: DirtyAccumulator)
    requires forall i | 0 <= i < |regions| :: FitsInt32(regions[i])
    requires |boxes| == |regions|
    requires forall i | 0 <= i < |boxes| :: boxes[i] == Clip(regions[i], frameWidth, frameHeight)
    ensures bounds.Now() == Accumulated(boxes, frameWidth, frameHeight)
  {
    bounds := new DirtyAccumulator(frameWidth, frameHeight);
    for i := 0 to |regions|
      invariant fresh(bounds) && bounds.Now() == Accumulated(boxes[..i], frameWidth, frameHeight)
    {
      bounds.AddRegion(regions[i], frameWidth, frameHeight);
      assert boxes[..i + 1][..i] == boxes[..i];
    }
    assert boxes[..|boxes|] == boxes;
  }

  /** The captured box out of the collected bounds. */
  method Finish(bounds: DirtyAccumulator, frameWidth: U32, frameHeight: U32, ghost boxes: seq<DirtyFrameStats>)
    returns (stats: DirtyFrameStats)
    requires 0 < frameWidth && 0 < frameHeight && |boxes| < 0x8000_0000
    requires forall i | 0 <= i < |boxes| :: InFrame(boxes[i], frameWidth, frameHeight) || !boxes[i].valid
    requires CountValid(boxes) <= |boxes| && Describes(bounds.Now(), boxes, frameWidth, frameHeight)
    ensures IsHull(stats, boxes) && stats.rectCount == CountValid(boxes) && (stats.valid <==> CountValid(boxes) > 0)
    ensures stats.valid ==>
              && InFrame(stats, frameWidth, frameHeight) && stats.areaPermille <= 1000
              && stats.areaPermille == Share(TotalArea(boxes), frameWidth, frameHeight)
  {
    MergeAllIsHull(boxes, frameWidth, frameHeight);
    ghost var all := MergeAll(boxes, frameWidth, frameHeight);
    if bounds.rectCount == 0 {
      stats := NO_DIRTY;
      SameBoxSameHull(all, stats, boxes);
      return;
    }
    AreaIsPositive(frameWidth, frameHeight);
    var frameArea := frameWidth * frameHeight;
    PermilleIsAtMost1000(bounds.dirtyArea, frameArea);
    stats := DirtyFrameStats(true, bounds.rectCount, bounds.minX, bounds.minY,
                             if bounds.maxX > bounds.minX then bounds.maxX - bounds.minX else 0,
                             if bounds.maxY > bounds.minY then bounds.maxY - bounds.minY else 0,
                             AreaPermille(bounds.dirtyArea, frameArea));
    SameBoxSameHull(all, stats, boxes);
  }

  lemma {:induction false} CountIsBounded(boxes: seq<DirtyFrameStats>)
    ensures CountValid(boxes) <= |boxes|
    ensures CountValid(boxes) > 0 <==> exists i | 0 <= i < |boxes| :: boxes[i].valid
  {
    if boxes != [] {
      var n := |boxes| - 1;
      CountIsBounded(boxes[..n]);
      if CountValid(boxes[..n]) > 0 {
        var i :| 0 <= i < |boxes[..n]| && boxes[..n][i].valid;
        assert boxes[i].valid;
      }
      if exists i | 0 <= i < |boxes| :: boxes[i].valid {
        var i :| 0 <= i < |boxes| && boxes[i].valid;
        if i < n { assert boxes[..n][i].valid; }
      }
    }
  }
}
