/** Aspect fit of the remote desktop into the local surface (surface/remote_content_geometry.cpp). */
module RemoteContentGeometry {
  import opened FrameUtils

  const ONE_TO_ONE_TOLERANCE_PX: nat := 16

  datatype Geometry = Geometry(
    valid: bool, published: bool, targetWidth: U32, targetHeight: U32,
    contentX: U32, contentY: U32, contentWidth: U32, contentHeight: U32,
    remoteWidth: U32, remoteHeight: U32)

  datatype PublishedRect = PublishedRect(x: U32, y: U32, width: U32, height: U32, remoteWidth: U32, remoteHeight: U32)

  function DimensionDelta(left: nat, right: nat): nat { if left > right then left - right else right - left }

  /** The remote desktop already fits and is within the tolerance on both sides: it is not scaled. */
  predicate IsOneToOne(targetWidth: U32, targetHeight: U32, remoteWidth: U32, remoteHeight: U32) {
    && remoteWidth <= targetWidth && remoteHeight <= targetHeight
    && DimensionDelta(targetWidth, remoteWidth) <= ONE_TO_ONE_TOLERANCE_PX
    && DimensionDelta(targetHeight, remoteHeight) <= ONE_TO_ONE_TOLERANCE_PX
  }

  /** The width and height before clamping; 64-bit quotients cut to 32 bits as the source casts them. */
  function ScaledSize(targetWidth: U32, targetHeight: U32, remoteWidth: U32, remoteHeight: U32): (U32, U32)
    requires 0 < remoteWidth && 0 < remoteHeight
  {
    var targetByRemoteHeight := targetWidth * remoteHeight;
    var targetHeightByRemoteWidth := targetHeight * remoteWidth;
    if IsOneToOne(targetWidth, targetHeight, remoteWidth, remoteHeight) then (remoteWidth, remoteHeight)
    else if targetByRemoteHeight <= targetHeightByRemoteWidth then
      (targetWidth, Max(1, targetByRemoteHeight / remoteWidth) % U32_LIMIT)
    else
      (Max(1, targetHeightByRemoteWidth / remoteHeight) % U32_LIMIT, targetHeight)
  }

  function FitRemoteContentIntoTarget(targetWidth: U32, targetHeight: U32, remoteWidth: U32,
                                      remoteHeight: U32): Geometry
  {
    if targetWidth == 0 || targetHeight == 0 || remoteWidth == 0 || remoteHeight == 0 then
      Geometry(false, false, targetWidth, targetHeight, 0, 0, 0, 0, remoteWidth, remoteHeight)
    else
      var (scaledWidth, scaledHeight) := ScaledSize(targetWidth, targetHeight, remoteWidth, remoteHeight);
      var width := Min(scaledWidth, targetWidth);
      var height := Min(scaledHeight, targetHeight);
      Geometry(width != 0 && height != 0, false, targetWidth, targetHeight,
               (targetWidth - width) / 2, (targetHeight - height) / 2, width, height, remoteWidth, remoteHeight)
  }

  predicate IsPublishedRectValid(targetWidth: U32, targetHeight: U32, remoteWidth: U32, remoteHeight: U32,
                                 rect: PublishedRect)
  {
    && rect.width != 0 && rect.height != 0
    && rect.remoteWidth == remoteWidth && rect.remoteHeight == remoteHeight
    && rect.x < targetWidth && rect.y < targetHeight
    && rect.x + rect.width <= targetWidth && rect.y + rect.height <= targetHeight
  }

  function ResolveRemoteContentGeometry(targetWidth: U32, targetHeight: U32, remoteWidth: U32, remoteHeight: U32,
                                        rect: PublishedRect): Geometry
  {
    var geometry := FitRemoteContentIntoTarget(targetWidth, targetHeight, remoteWidth, remoteHeight);
    if !geometry.valid
       || !IsPublishedRectValid(targetWidth, targetHeight, remoteWidth, remoteHeight, rect) then geometry
    else geometry.(published := true, contentX := rect.x, contentY := rect.y,
                   contentWidth := rect.width, contentHeight := rect.height)
  }

  predicate IsPointInsideRemoteContent(geometry: Geometry, x: U32, y: U32) {
    && geometry.valid
    && geometry.contentX <= x < geometry.contentX + geometry.contentWidth
    && geometry.contentY <= y < geometry.contentY + geometry.contentHeight
  }

  // ---- What the fit guarantees ----

  lemma QuotientBounds(a: nat, b: nat)
    requires 0 < b
    ensures (a / b) * b <= a < (a / b + 1) * b
  {
  }

  lemma QuotientAtMost(a: nat, b: nat, limit: nat)
    requires 0 < b && a <= limit * b
    ensures a / b <= limit
  {
  }

  /** The target is at least as large as the remote desktop, and in neither direction more than 16 pixels larger. */
  predicate FitsWithin16(targetWidth: nat, targetHeight: nat, remoteWidth: nat, remoteHeight: nat) {
    remoteWidth <= targetWidth <= remoteWidth + 16 && remoteHeight <= targetHeight <= remoteHeight + 16
  }

  /** In the 1:1 case, and for no other reason, the desktop keeps its size. */
  lemma KeepsItsSizeWithin16(targetWidth: U32, targetHeight: U32, remoteWidth: U32, remoteHeight: U32)
    requires 0 < remoteWidth && 0 < remoteHeight && FitsWithin16(targetWidth, targetHeight, remoteWidth, remoteHeight)
    ensures var g := FitRemoteContentIntoTarget(targetWidth, targetHeight, remoteWidth, remoteHeight);
            && g.valid && g.contentWidth == remoteWidth && g.contentHeight == remoteHeight
            && 0 <= targetWidth - remoteWidth - 2 * g.contentX <= 1
            && 0 <= targetHeight - remoteHeight - 2 * g.contentY <= 1
  {
  }

  /** The length is product / divisor rounded down, but at least one pixel. */
  predicate IsRoundedDown(length: nat, product: nat, divisor: nat) {
    product < (length + 1) * divisor && (length * divisor <= product || length == 1)
  }

  lemma CutLengthIsRoundedDown(product: nat, divisor: nat, limit: U32)
    requires 0 < divisor && 0 < limit && product <= limit * divisor
    ensures 1 <= Max(1, product / divisor) % U32_LIMIT <= limit
    ensures IsRoundedDown(Max(1, product / divisor) % U32_LIMIT, product, divisor)
  {
    QuotientAtMost(product, divisor, limit);
    QuotientBounds(product, divisor);
    NothingIsCut(Max(1, product / divisor));
  }

  lemma NothingIsCut(n: U32)
    ensures n % U32_LIMIT == n
  {
  }

  /** No quotient is cut: outside the 1:1 case one side fills the target and the other is the
      rounded-down proportional length, never less than one pixel. */
  lemma ScaledSizeIsProportional(targetWidth: U32, targetHeight: U32, remoteWidth: U32, remoteHeight: U32)
    requires 0 < targetWidth && 0 < targetHeight && 0 < remoteWidth && 0 < remoteHeight
    requires !FitsWithin16(targetWidth, targetHeight, remoteWidth, remoteHeight)
    ensures var (width, height) := ScaledSize(targetWidth, targetHeight, remoteWidth, remoteHeight);
            && 1 <= width <= targetWidth && 1 <= height <= targetHeight
            && (|| (width == targetWidth && targetWidth * remoteHeight <= targetHeight * remoteWidth &&
                    IsRoundedDown(height, targetWidth * remoteHeight, remoteWidth))
                || (height == targetHeight && targetHeight * remoteWidth < targetWidth * remoteHeight &&
                    IsRoundedDown(width, targetHeight * remoteWidth, remoteHeight)))
  {
    var byHeight := targetWidth * remoteHeight;
    var byWidth := targetHeight * remoteWidth;
    if byHeight <= byWidth {
      CutLengthIsRoundedDown(byHeight, remoteWidth, targetHeight);
    } else {
      CutLengthIsRoundedDown(byWidth, remoteHeight, targetWidth);
    }
  }

  /** The viewport is non-empty exactly for non-empty sizes, lies inside the target, and is centred:
      the two margins of a direction differ by at most one. */
  lemma FitIsInsideAndCentred(targetWidth: U32, targetHeight: U32, remoteWidth: U32, remoteHeight: U32)
    ensures var g := FitRemoteContentIntoTarget(targetWidth, targetHeight, remoteWidth, remoteHeight);
            && (g.valid <==> targetWidth != 0 && targetHeight != 0 && remoteWidth != 0 && remoteHeight != 0)
            && (g.valid <==> g.contentWidth != 0 && g.contentHeight != 0)
            && (g.valid ==>
                  var right := targetWidth - g.contentX - g.contentWidth;
                  var bottom := targetHeight - g.contentY - g.contentHeight;
                  0 <= right - g.contentX <= 1 && 0 <= bottom - g.contentY <= 1)
            && (!g.valid ==> g.contentX == g.contentY == g.contentWidth == g.contentHeight == 0)
  {
    if targetWidth != 0 && targetHeight != 0 && remoteWidth != 0 && remoteHeight != 0
       && !FitsWithin16(targetWidth, targetHeight, remoteWidth, remoteHeight) {
      ScaledSizeIsProportional(targetWidth, targetHeight, remoteWidth, remoteHeight);
    }
  }

  /** Outside the 1:1 case the picture touches two opposite sides and keeps the remote aspect ratio
      up to rounding down by less than one pixel. */
  lemma FitTouchesOppositeSides(targetWidth: U32, targetHeight: U32, remoteWidth: U32, remoteHeight: U32)
    requires 0 < targetWidth && 0 < targetHeight && 0 < remoteWidth && 0 < remoteHeight
    requires !FitsWithin16(targetWidth, targetHeight, remoteWidth, remoteHeight)
    ensures var g := FitRemoteContentIntoTarget(targetWidth, targetHeight, remoteWidth, remoteHeight);
            || (g.contentX == 0 && g.contentWidth == targetWidth &&
                targetWidth * remoteHeight <= targetHeight * remoteWidth &&
                IsRoundedDown(g.contentHeight, targetWidth * remoteHeight, remoteWidth))
            || (g.contentY == 0 && g.contentHeight == targetHeight &&
                targetHeight * remoteWidth < targetWidth * remoteHeight &&
                IsRoundedDown(g.contentWidth, targetHeight * remoteWidth, remoteHeight))
  {
    ScaledSizeIsProportional(targetWidth, targetHeight, remoteWidth, remoteHeight);
  }

  /** A remote desktop of exactly the target size is painted 1:1 from the origin. */
  lemma EqualSizesAreOneToOne(width: U32, height: U32)
    requires 0 < width && 0 < height
    ensures var g := FitRemoteContentIntoTarget(width, height, width, height);
            g.valid && g.contentX == 0 && g.contentY == 0 && g.contentWidth == width && g.contentHeight == height
  {
  }

  /** The pixel (x, y) belongs to the published rectangle. */
  predicate IsPixelOf(rect: PublishedRect, x: nat, y: nat) {
    0 <= x - rect.x < rect.width && 0 <= y - rect.y < rect.height
  }

  /** The published rectangle is used exactly when sizes and rectangle are not empty, it was published for this remote
      size, and all its pixels are in the target. */
  lemma PublishedExactlyWhen(targetWidth: U32, targetHeight: U32, remoteWidth: U32, remoteHeight: U32,
                             rect: PublishedRect)
    ensures ResolveRemoteContentGeometry(targetWidth, targetHeight, remoteWidth, remoteHeight, rect).published <==>
              && 0 < remoteWidth == rect.remoteWidth && 0 < remoteHeight == rect.remoteHeight
              && 0 < rect.width && 0 < rect.height
              && forall x: nat, y: nat | IsPixelOf(rect, x, y) :: x < targetWidth && y < targetHeight
  {
    FitIsInsideAndCentred(targetWidth, targetHeight, remoteWidth, remoteHeight);
    if 0 < rect.width && 0 < rect.height {
      assert IsPixelOf(rect, rect.x + rect.width - 1, rect.y + rect.height - 1);
    }
  }

  /** Every point reported inside the content is inside the target, whether the published rectangle
      was taken or not, and the published one is taken exactly when it is valid. */
  lemma ResolvedContentStaysInTarget(targetWidth: U32, targetHeight: U32, remoteWidth: U32, remoteHeight: U32,
                                     rect: PublishedRect, x: U32, y: U32)
    ensures var g := ResolveRemoteContentGeometry(targetWidth, targetHeight, remoteWidth, remoteHeight, rect);
            && (IsPointInsideRemoteContent(g, x, y) ==> x < targetWidth && y < targetHeight)
            && (g.published <==>
                  0 < remoteWidth && 0 < remoteHeight &&
                  IsPublishedRectValid(targetWidth, targetHeight, remoteWidth, remoteHeight, rect))
            && (if g.published then
                  && g.contentX == rect.x && g.contentY == rect.y
                  && g.contentWidth == rect.width && g.contentHeight == rect.height
                else g == FitRemoteContentIntoTarget(targetWidth, targetHeight, remoteWidth, remoteHeight))
            && (IsPointInsideRemoteContent(g, x, y) <==>
                  g.valid && 0 <= x - g.contentX < g.contentWidth && 0 <= y - g.contentY < g.contentHeight)
  {
    FitIsInsideAndCentred(targetWidth, targetHeight, remoteWidth, remoteHeight);
  }
}
