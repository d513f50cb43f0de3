/** Dirty boxes: the rectangle of a frame that changed, and how boxes are merged
    (common/frame_utils.cpp) and captured from the GDI invalid regions
    (freerdp/freerdp_gdi_bridge.cpp). */
module FrameUtils {

  const U32_LIMIT: nat := 0x1_0000_0000
  const U64_LIMIT: nat := 0x1_0000_0000_0000_0000

  type U32 = n: nat | n < 0x1_0000_0000

  datatype DirtyFrameStats = DirtyFrameStats(
    valid: bool, rectCount: U32, x: U32, y: U32, width: U32, height: U32, areaPermille: U32)

  const NO_DIRTY := DirtyFrameStats(false, 0, 0, 0, 0, 0, 0)

  function Min(a: int, b: int): int { if a < b then a else b }

  function Max(a: int, b: int): int { if a < b then b else a }

  /** The share of the frame a box takes, in 64-bit unsigned arithmetic and cut to 32 bits. */
  function AreaPermille(dirtyArea: nat, frameArea: nat): U32
    requires 0 < frameArea
  {
    ((Min(dirtyArea, frameArea) * 1000 + frameArea / 2) % U64_LIMIT) / frameArea % U32_LIMIT
  }

  /** The area share of a box, or 0 for an empty frame. */
  function BoxPermille(width: nat, height: nat, frameWidth: nat, frameHeight: nat): U32 {
    if frameWidth == 0 || frameHeight == 0 then 0
    else AreaIsPositive(frameWidth, frameHeight); AreaPermille(width * height, frameWidth * frameHeight)
  }

  /** One side of the merged box: where it starts and how long it is after clipping to the frame. */
  function MergedStart(first: nat, second: nat): nat { Min(first, second) }

  function MergedLength(first: nat, firstLength: nat, second: nat, secondLength: nat, limit: nat): nat {
    var end := Min(limit, Max(first + firstLength, second + secondLength));
    var start := MergedStart(first, second);
    if end > start then end - start else 0
  }

  /** Rectangle counts saturate instead of wrapping. */
  function AddCounts(first: U32, second: U32): U32 {
    var sum := (first + second) % U32_LIMIT;
    if sum < first then U32_LIMIT - 1 else sum
  }

  function MergeDirtyStats(first: DirtyFrameStats, second: DirtyFrameStats,
                           frameWidth: U32, frameHeight: U32): DirtyFrameStats
  {
    if !first.valid then second
    else if !second.valid then first
    else if frameWidth == 0 || frameHeight == 0 then NO_DIRTY
    else
      var width := MergedLength(first.x, first.width, second.x, second.width, frameWidth);
      var height := MergedLength(first.y, first.height, second.y, second.height, frameHeight);
      DirtyFrameStats(true, AddCounts(first.rectCount, second.rectCount),
                      MergedStart(first.x, second.x), MergedStart(first.y, second.y), width, height,
                      BoxPermille(width, height, frameWidth, frameHeight))
  }

  lemma AreaIsPositive(width: nat, height: nat)
    requires 0 < width && 0 < height
    ensures 0 < width * height
  {
  }

  // ---- What a box means: the pixels it covers ----

  predicate Covers(dirty: DirtyFrameStats, px: int, py: int) {
    dirty.valid && dirty.x <= px < dirty.x + dirty.width && dirty.y <= py < dirty.y + dirty.height
  }

  /** A valid, non-empty box inside a frame: what the capture from the invalid regions produces. */
  predicate InFrame(dirty: DirtyFrameStats, frameWidth: U32, frameHeight: U32) {
    && dirty.valid && 0 < dirty.width && 0 < dirty.height
    && dirty.x + dirty.width <= frameWidth && dirty.y + dirty.height <= frameHeight
  }

  /** Every pixel of `inner` is a pixel of `outer`. */
  ghost predicate Within(inner: DirtyFrameStats, outer: DirtyFrameStats) {
    forall px, py :: Covers(inner, px, py) ==> Covers(outer, px, py)
  }

  /** `hull` contains every valid box of the list, and every box that does contains `hull`. */
  ghost predicate IsHull(hull: DirtyFrameStats, boxes: seq<DirtyFrameStats>) {
    && (forall i | 0 <= i < |boxes| :: Within(boxes[i], hull))
    && (forall box: DirtyFrameStats :: (forall i | 0 <= i < |boxes| :: Within(boxes[i], box)) ==> Within(hull, box))
  }

  /** The share never exceeds 1000, even when the 64-bit product wraps. */
  lemma PermilleIsAtMost1000(dirtyArea: nat, frameArea: nat)
    requires 0 < frameArea
    ensures AreaPermille(dirtyArea, frameArea) <= 1000
  {
    var rounded := Min(dirtyArea, frameArea) * 1000 + frameArea / 2;
    assert rounded < 1001 * frameArea;
    CutBelow(rounded, U64_LIMIT, 1001 * frameArea);
    PermilleOf(rounded % U64_LIMIT, frameArea);
  }

  lemma PermilleOf(cut: nat, frameArea: nat)
    requires 0 < frameArea && cut < 1001 * frameArea
    ensures cut / frameArea % U32_LIMIT <= 1000
  {
    QuotientBelow(cut, frameArea, 1001);
    CutBelow(cut / frameArea, U32_LIMIT, 1001);
  }

  lemma CutBelow(n: nat, m: nat, bound: nat)
    requires 0 < m && n < bound
    ensures n % m < bound
  {
    if n < m { SmallRemainder(n, m); }
  }

  lemma SmallRemainder(n: nat, m: nat)
    requires n < m
    ensures n % m == n
  {
  }

  lemma QuotientBelow(a: nat, b: nat, bound: nat)
    requires 0 < b && a < bound * b
    ensures a / b < bound
  {
  }

  /** p is the thousandths that `area` is of the frame area, rounded half up. */
  predicate IsRoundedShare(p: nat, area: nat, frameArea: nat) {
    p * frameArea <= 1000 * area + frameArea / 2 < (p + 1) * frameArea
  }

  lemma CutQuotient(n: nat, d: nat)
    requires 0 < d && n < 1001 * d
    ensures var p := n / d % U32_LIMIT;
            p * d <= n < (p + 1) * d
  {
    QuotientBelow(n, d, 1001);
    SmallRemainder(n / d, U32_LIMIT);
  }

  /** As long as the 64-bit sum does not wrap, the share is the thousandths of the frame area, rounded; an area beyond
      the frame's counts as the whole frame. */
  lemma PermilleIsRoundedShare(dirtyArea: nat, frameArea: nat)
    requires 0 < frameArea < 0x40_0000_0000_0000
    ensures IsRoundedShare(AreaPermille(dirtyArea, frameArea),
                           if dirtyArea < frameArea then dirtyArea else frameArea, frameArea)
  {
    var area := if dirtyArea < frameArea then dirtyArea else frameArea;
    var n := area * 1000 + frameArea / 2;
    SmallRemainder(n, U64_LIMIT);
    CutQuotient(n, frameArea);
  }

  lemma BoxShareIsRounded(width: nat, height: nat, frameWidth: nat, frameHeight: nat, area: nat, frameArea: nat)
    requires 0 < frameWidth && 0 < frameHeight && area == width * height
    requires frameArea == frameWidth * frameHeight < 0x40_0000_0000_0000
    ensures IsRoundedShare(BoxPermille(width, height, frameWidth, frameHeight),
                           if area < frameArea then area else frameArea, frameArea)
  {
    AreaIsPositive(frameWidth, frameHeight);
    PermilleIsRoundedShare(area, frameArea);
  }

  /** The share recorded with a merged box is that of its own area. */
  lemma MergedShareIsOfTheBox(first: DirtyFrameStats, second: DirtyFrameStats, frameWidth: U32, frameHeight: U32,
                              area: nat, frameArea: nat)
    requires first.valid && second.valid && 0 < frameWidth && 0 < frameHeight
    requires var merged := MergeDirtyStats(first, second, frameWidth, frameHeight);
             area == merged.width * merged.height
    requires frameArea == frameWidth * frameHeight < 0x40_0000_0000_0000
    ensures IsRoundedShare(MergeDirtyStats(first, second, frameWidth, frameHeight).areaPermille,
                           if area < frameArea then area else frameArea, frameArea)
  {
    var merged := MergeDirtyStats(first, second, frameWidth, frameHeight);
    BoxShareIsRounded(merged.width, merged.height, frameWidth, frameHeight, area, frameArea);
  }

  // ---- Merging ----

  /** Two counts add up, and stay at the largest 32-bit value instead of wrapping. */
  lemma CountsSaturate(first: U32, second: U32)
    ensures AddCounts(first, second) == if first + second < 0x1_0000_0000 then first + second else 0xFFFF_FFFF
  {
  }

  /** Nothing inside the frame is lost, whatever the two boxes are. */
  lemma MergeCoversBoth(first: DirtyFrameStats, second: DirtyFrameStats, frameWidth: U32, frameHeight: U32,
                        px: int, py: int)
    requires 0 <= px < frameWidth && 0 <= py < frameHeight
    requires Covers(first, px, py) || Covers(second, px, py)
    ensures Covers(MergeDirtyStats(first, second, frameWidth, frameHeight), px, py)
  {
  }

  lemma MergeIsLeastBox(first: DirtyFrameStats, second: DirtyFrameStats, frameWidth: U32, frameHeight: U32)
    requires InFrame(first, frameWidth, frameHeight) && InFrame(second, frameWidth, frameHeight)
    ensures var merged := MergeDirtyStats(first, second, frameWidth, frameHeight);
            InFrame(merged, frameWidth, frameHeight) && IsHull(merged, [first, second])
  {
    var merged := MergeDirtyStats(first, second, frameWidth, frameHeight);
    var boxes := [first, second];
    assert Within(boxes[0], merged) && Within(boxes[1], merged);
    forall box: DirtyFrameStats | forall i | 0 <= i < |boxes| :: Within(boxes[i], box)
      ensures Within(merged, box)
    {
      assert Within(boxes[0], box) && Within(boxes[1], box);
      CornersInside(first, box);
      CornersInside(second, box);
    }
  }

  lemma CornersInside(inner: DirtyFrameStats, outer: DirtyFrameStats)
    requires inner.valid && 0 < inner.width && 0 < inner.height && Within(inner, outer)
    ensures outer.valid && outer.x <= inner.x && inner.x + inner.width <= outer.x + outer.width
    ensures outer.y <= inner.y && inner.y + inner.height <= outer.y + outer.height
  {
    assert Covers(inner, inner.x, inner.y);
    assert Covers(inner, inner.x + inner.width - 1, inner.y + inner.height - 1);
  }

  lemma MergeCommutes(first: DirtyFrameStats, second: DirtyFrameStats, frameWidth: U32, frameHeight: U32)
    requires first.valid && second.valid
    ensures MergeDirtyStats(first, second, frameWidth, frameHeight) ==
            MergeDirtyStats(second, first, frameWidth, frameHeight)
  {
    CountsCommute(first.rectCount, second.rectCount);
    LengthCommutes(first.x, first.width, second.x, second.width, frameWidth);
    LengthCommutes(first.y, first.height, second.y, second.height, frameHeight);
  }

  lemma CountsCommute(a: U32, b: U32)
    ensures AddCounts(a, b) == AddCounts(b, a)
  {
  }

  lemma LengthCommutes(a: nat, aLength: nat, b: nat, bLength: nat, limit: nat)
    ensures MergedLength(a, aLength, b, bLength, limit) == MergedLength(b, bLength, a, aLength, limit)
  {
  }

  lemma LengthAssociates(a: nat, aLength: nat, b: nat, bLength: nat, c: nat, cLength: nat, limit: nat)
    requires 0 < aLength && 0 < bLength && 0 < cLength
    requires a + aLength <= limit && b + bLength <= limit && c + cLength <= limit
    ensures MergedLength(MergedStart(a, b), MergedLength(a, aLength, b, bLength, limit), c, cLength, limit) ==
            MergedLength(a, aLength, MergedStart(b, c), MergedLength(b, bLength, c, cLength, limit), limit)
  {
  }

  lemma CountsAssociate(a: U32, b: U32, c: U32)
    ensures AddCounts(AddCounts(a, b), c) == AddCounts(a, AddCounts(b, c))
  {
  }

  /** The whole record is associative, rectangle count and area share included. */
  lemma MergeAssociates(a: DirtyFrameStats, b: DirtyFrameStats, c: DirtyFrameStats,
                        frameWidth: U32, frameHeight: U32)
    requires InFrame(a, frameWidth, frameHeight) || !a.valid
    requires InFrame(b, frameWidth, frameHeight) || !b.valid
    requires InFrame(c, frameWidth, frameHeight) || !c.valid
    ensures MergeDirtyStats(MergeDirtyStats(a, b, frameWidth, frameHeight), c, frameWidth, frameHeight) ==
            MergeDirtyStats(a, MergeDirtyStats(b, c, frameWidth, frameHeight), frameWidth, frameHeight)
  {
    if a.valid && b.valid && c.valid {
      CountsAssociate(a.rectCount, b.rectCount, c.rectCount);
      LengthAssociates(a.x, a.width, b.x, b.width, c.x, c.width, frameWidth);
      LengthAssociates(a.y, a.height, b.y, b.height, c.y, c.height, frameHeight);
    }
  }

  /** Merging in order, from nothing, as the painter walks its history. */
  function MergeAll(boxes: seq<DirtyFrameStats>, frameWidth: U32, frameHeight: U32): DirtyFrameStats {
    if boxes == [] then NO_DIRTY
    else MergeDirtyStats(MergeAll(boxes[..|boxes| - 1], frameWidth, frameHeight), boxes[|boxes| - 1],
                         frameWidth, frameHeight)
  }

  lemma {:induction false} MergeAllIsHull(boxes: seq<DirtyFrameStats>, frameWidth: U32, frameHeight: U32)
    requires forall i | 0 <= i < |boxes| :: InFrame(boxes[i], frameWidth, frameHeight) || !boxes[i].valid
    ensures var all := MergeAll(boxes, frameWidth, frameHeight);
            IsHull(all, boxes) && (InFrame(all, frameWidth, frameHeight) || !all.valid)
  {
    if boxes != [] {
      var n := |boxes| - 1;
      var init, last := boxes[..n], boxes[n];
      MergeAllIsHull(init, frameWidth, frameHeight);
      var before := MergeAll(init, frameWidth, frameHeight);
      var all := MergeAll(boxes, frameWidth, frameHeight);
      if before.valid && last.valid {
        MergeIsLeastBox(before, last, frameWidth, frameHeight);
        assert Within([before, last][0], all) && Within([before, last][1], all);
      }
      forall i | 0 <= i < |boxes| ensures Within(boxes[i], all) {
        if i < n { assert init[i] == boxes[i]; }
      }
      forall box: DirtyFrameStats | forall i | 0 <= i < |boxes| :: Within(boxes[i], box)
        ensures Within(all, box)
      {
        assert forall i | 0 <= i < |init| :: init[i] == boxes[i];
        assert Within(before, box) && Within(last, box);
        if before.valid && last.valid {
          var two := [before, last];
          assert forall i | 0 <= i < |two| :: Within(two[i], box);
        }
      }
    }
  }
}
