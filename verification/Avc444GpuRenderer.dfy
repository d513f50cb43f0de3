/** The retained planes of the AVC444 compositor and the draw calls that update them in place
    (surface/avc444_gpu_renderer.cpp). Textures are stored bottom row first, as the framebuffer is. */
module Avc444GpuRenderer {
  import opened Avc444Shaders

  datatype Pass = CopyYPass | LumaUvPass(plane: PlaneId) | ChromaPass(codec: Codec, plane: PlaneId)

  /** How the calls around the draws went: refused before drawing, failed after it, or done. */
  datatype GlOutcome = Refused | GlError | Done

  /** One fragment of a pass. */
  function Fragment(pass: Pass, frame: DecodedFrame, rect: Rect, x: nat, y: nat, previous: Byte): Byte
    requires Contains(rect, x, y) && 0 < frame.yHeight
  {
    match pass
    case CopyYPass => CopyY(frame, x, y)
    case LumaUvPass(plane) => Read(frame, LumaUvFetch(rect, plane, x, y), previous)
    case ChromaPass(codec, plane) => Read(frame, ChromaFetch(codec, frame, rect, plane, x, y), previous)
  }

  predicate RectsInside(rects: seq<Rect>, width: nat, height: nat) {
    forall i | 0 <= i < |rects| :: rects[i].right <= width && rects[i].bottom <= height
  }

  /** What a pass over a list of rectangles leaves at a sample. */
  function AfterPass(pass: Pass, frame: DecodedFrame, rects: seq<Rect>, x: nat, y: nat, previous: Byte,
                     before: Byte): Byte
    requires 0 < frame.yHeight
  {
    var r := LastRect(rects, x, y);
    if r == [] then before else Fragment(pass, frame, r[0], x, y, previous)
  }

  /** What the renderer says it has. */
  datatype Flags = Flags(luma: bool, chroma: bool)

  datatype Call = LumaApplied(ok: bool) | ChromaApplied(ok: bool) | Invalidated

  function AfterCall(f: Flags, call: Call): Flags {
    match call
    case LumaApplied(ok) => if ok then Flags(true, true) else f
    case ChromaApplied(ok) => if ok then f.(chroma := true) else f
    case Invalidated => Flags(false, false)
  }

  /** From a new renderer on. */
  function AfterCalls(calls: seq<Call>): Flags {
    if calls == [] then Flags(false, false) else AfterCall(AfterCalls(calls[..|calls| - 1]), calls[|calls| - 1])
  }

  /** Call i succeeded and nothing was invalidated after it. */
  predicate Counts(calls: seq<Call>, i: nat)
    requires i < |calls|
  {
    !calls[i].Invalidated? && calls[i].ok && forall k | i < k < |calls| :: !calls[k].Invalidated?
  }

  /** Over any calls: ready to present exactly once a main view was applied since the last invalidation; an auxiliary
      view alone makes nothing ready. */
  lemma {:induction false} ReadyExactlyAfterLuma(calls: seq<Call>)
    ensures AfterCalls(calls).luma <==> exists i: nat :: i < |calls| && Counts(calls, i) && calls[i].LumaApplied?
    ensures AfterCalls(calls).chroma <==> exists i: nat :: i < |calls| && Counts(calls, i)
    ensures AfterCalls(calls).luma ==> AfterCalls(calls).chroma
  {
    if calls != [] {
      var n := |calls| - 1;
      var front, last := calls[..n], calls[n];
      ReadyExactlyAfterLuma(front);
      if !last.Invalidated? {
        forall i: nat | i < n ensures Counts(calls, i) <==> Counts(front, i) {
        }
        assert Counts(calls, n) <==> last.ok;
      }
    }
  }

  class Renderer {
    const surfaceWidth: nat
    const surfaceHeight: nat
    var yTexture: array2<Byte>
    var uTexture: array2<Byte>
    var vTexture: array2<Byte>
    var uScratchTexture: array2<Byte>
    var vScratchTexture: array2<Byte>
    var hasLuma: bool
    var hasChroma: bool

    predicate HasSurfaceSize(texture: array2<Byte>) {
      texture.Length0 == surfaceHeight && texture.Length1 == surfaceWidth
    }

    ghost predicate Valid()
      reads this
    {
      && HasSurfaceSize(yTexture) && HasSurfaceSize(uTexture) && HasSurfaceSize(vTexture)
      && HasSurfaceSize(uScratchTexture) && HasSurfaceSize(vScratchTexture)
      && yTexture != uTexture && yTexture != vTexture && yTexture != uScratchTexture && yTexture != vScratchTexture
      && uTexture != vTexture && uTexture != uScratchTexture && uTexture != vScratchTexture
      && vTexture != uScratchTexture && vTexture != vScratchTexture && uScratchTexture != vScratchTexture
    }

    ghost function Textures(): set<object>
      reads this
    {
      {yTexture, uTexture, vTexture, uScratchTexture, vScratchTexture}
    }

    /** The sample of a texture at surface position (x, y), counted from the top. */
    function At(texture: array2<Byte>, x: nat, y: nat): Byte
      requires HasSurfaceSize(texture) && x < surfaceWidth && y < surfaceHeight
      reads texture
    {
      texture[surfaceHeight - 1 - y, x]
    }

    constructor (width: nat, height: nat)
      ensures Valid() && surfaceWidth == width && surfaceHeight == height && Ready() == Flags(false, false)
      ensures fresh(Textures())
    {
      surfaceWidth, surfaceHeight, hasLuma, hasChroma := width, height, false, false;
      yTexture := new Byte[height, width];
      uTexture := new Byte[height, width];
      vTexture := new Byte[height, width];
      uScratchTexture := new Byte[height, width];
      vScratchTexture := new Byte[height, width];
    }

    predicate ReadyToPresent()
      reads this
    {
      hasLuma && hasChroma
    }

    ghost function Ready(): Flags
      reads this
    {
      Flags(hasLuma, hasChroma)
    }

    method InvalidateComposedState()
      modifies this`hasLuma, this`hasChroma
      ensures Ready() == AfterCall(old(Ready()), Invalidated) && !hasLuma && !hasChroma && !ReadyToPresent()
    {
      hasLuma := false;
      hasChroma := false;
    }

    method DrawRectsToTexture(target: array2<Byte>, previous: array2<Byte>, pass: Pass, frame: DecodedFrame,
                              rects: seq<Rect>)
      requires HasSurfaceSize(target) && HasSurfaceSize(previous) && target != previous
      requires 0 < frame.yHeight && RectsInside(rects, surfaceWidth, surfaceHeight)
      modifies target
      ensures forall x: nat, y: nat | x < surfaceWidth && y < surfaceHeight ::
                At(target, x, y) == AfterPass(pass, frame, rects, x, y, At(previous, x, y), old(At(target, x, y)))
    {
      for i := 0 to |rects|
        invariant forall row: nat, x: nat | x < surfaceWidth && row < surfaceHeight ::
                    target[row, x] == AfterPass(pass, frame, rects[..i], x, surfaceHeight - 1 - row,
                                                previous[row, x], old(target[row, x]))
      {
        var rect := rects[i];
        assert rects[..i + 1][..i] == rects[..i];
        forall row: nat, x: nat | row < surfaceHeight && x < surfaceWidth
                                  && rect.top <= surfaceHeight - 1 - row < rect.bottom && rect.left <= x < rect.right {
          target[row, x] := Fragment(pass, frame, rect, x, surfaceHeight - 1 - row, previous[row, x]);
        }
      }
      assert rects[..|rects|] == rects;
    }

    method CopyPlaneTexture(source: array2<Byte>, target: array2<Byte>)
      requires HasSurfaceSize(source) && HasSurfaceSize(target) && source != target
      modifies target
      ensures forall x: nat, y: nat | x < surfaceWidth && y < surfaceHeight :: At(target, x, y) == At(source, x, y)
    {
      forall row: nat, x: nat | row < surfaceHeight && x < surfaceWidth {
        target[row, x] := source[row, x];
      }
    }

    /** The main view: Y and the base chroma inside the rectangles. What a GL error leaves in the planes is open. */
    method ApplyLuma(frame: DecodedFrame, rects: seq<Rect>, outcome: GlOutcome) returns (ok: bool)
      requires Valid() && 0 < frame.yHeight && RectsInside(rects, surfaceWidth, surfaceHeight)
      modifies this`hasLuma, this`hasChroma, yTexture, uTexture, vTexture
      ensures Valid() && ok == outcome.Done?
      ensures Ready() == AfterCall(old(Ready()), LumaApplied(ok)) && (ReadyToPresent() <==> old(ReadyToPresent()) || ok)
      ensures var update := Luma(frame, rects);
              forall x: nat, y: nat | x < surfaceWidth && y < surfaceHeight ::
                && (outcome.Refused? ==>
                      && At(yTexture, x, y) == old(At(yTexture, x, y))
                      && At(uTexture, x, y) == old(At(uTexture, x, y))
                      && At(vTexture, x, y) == old(At(vTexture, x, y)))
                && (outcome.Done? ==>
                      && At(yTexture, x, y) == AfterUpdateY(update, x, y, old(At(yTexture, x, y)))
                      && At(uTexture, x, y) == AfterUpdate(update, U, x, y, old(At(uTexture, x, y)))
                      && At(vTexture, x, y) == AfterUpdate(update, V, x, y, old(At(vTexture, x, y))))
    {
      if outcome.Refused? {
        return false;
      }
      DrawRectsToTexture(yTexture, uScratchTexture, CopyYPass, frame, rects);
      DrawRectsToTexture(uTexture, uScratchTexture, LumaUvPass(U), frame, rects);
      DrawRectsToTexture(vTexture, vScratchTexture, LumaUvPass(V), frame, rects);
      if outcome.GlError? {
        return false;
      }
      hasLuma := true;
      hasChroma := true;
      return true;
    }

    /** Copies the plane aside, draws over the copy while reading the original, and swaps the two. */
    method PingPongChromaPlane(uPlane: bool, codec: Codec, frame: DecodedFrame, rects: seq<Rect>)
      requires Valid() && 0 < frame.yHeight && RectsInside(rects, surfaceWidth, surfaceHeight)
      modifies this`uTexture, this`uScratchTexture, this`vTexture, this`vScratchTexture
      modifies if uPlane then uScratchTexture else vScratchTexture
      ensures Valid() && Textures() == old(Textures())
      ensures uPlane ==> vTexture == old(vTexture) && vScratchTexture == old(vScratchTexture)
                         && uTexture == old(uScratchTexture) && uScratchTexture == old(uTexture)
      ensures !uPlane ==> uTexture == old(uTexture) && uScratchTexture == old(uScratchTexture)
                          && vTexture == old(vScratchTexture) && vScratchTexture == old(vTexture)
      ensures forall x: nat, y: nat | x < surfaceWidth && y < surfaceHeight ::
                if uPlane then At(uTexture, x, y) ==
                  AfterUpdate(Chroma(codec, frame, rects), U, x, y, old(At(uTexture, x, y)))
                else At(vTexture, x, y) == AfterUpdate(Chroma(codec, frame, rects), V, x, y, old(At(vTexture, x, y)))
    {
      var current := if uPlane then uTexture else vTexture;
      var scratch := if uPlane then uScratchTexture else vScratchTexture;
      CopyPlaneTexture(current, scratch);
      DrawRectsToTexture(scratch, current, ChromaPass(codec, if uPlane then U else V), frame, rects);
      if uPlane {
        uTexture, uScratchTexture := scratch, current;
      } else {
        vTexture, vScratchTexture := scratch, current;
      }
    }

    /** The auxiliary view. What a GL error leaves in the planes is open; only the flag says that nothing is new. */
    method ApplyChroma(codec: Codec, frame: DecodedFrame, rects: seq<Rect>, outcome: GlOutcome)
      returns (ok: bool)
      requires Valid() && 0 < frame.yHeight && RectsInside(rects, surfaceWidth, surfaceHeight)
      modifies this, uScratchTexture, vScratchTexture
      ensures Valid() && ok == outcome.Done? && Textures() == old(Textures())
      ensures Ready() == AfterCall(old(Ready()), ChromaApplied(ok)) && (ReadyToPresent() ==> old(hasLuma))
      ensures yTexture == old(yTexture)
      ensures var update := Chroma(codec, frame, rects);
              forall x: nat, y: nat | x < surfaceWidth && y < surfaceHeight ::
                && (outcome.Refused? ==>
                      && At(uTexture, x, y) == old(At(uTexture, x, y)) && At(vTexture, x, y) == old(At(vTexture, x, y)))
                && (outcome.Done? ==>
                      && At(uTexture, x, y) == AfterUpdate(update, U, x, y, old(At(uTexture, x, y)))
                      && At(vTexture, x, y) == AfterUpdate(update, V, x, y, old(At(vTexture, x, y))))
    {
      if outcome.Refused? {
        return false;
      }
      PingPongChromaPlane(true, codec, frame, rects);
      PingPongChromaPlane(false, codec, frame, rects);
      if outcome.GlError? {
        return false;
      }
      hasChroma := true;
      return true;
    }
  }
}
