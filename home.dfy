/**
 * The fog state of the home page (src/app/home/home.page.ts, class HomePage):
 * the current fog mask, the flag that tells the frame loop to refresh its cached
 * fog canvas, the mouse-stroke flag, and the operations that change them.
 */
module Home {

  import opened Wrappers
  import opened Geometry
  import opened Raster
  import opened Brush

  /** The canvas's bounding client rectangle, in CSS pixels. */
  datatype Rect = Rect(left: real, top: real, width: real, height: real)

  /**
   * What the cached fog canvas holds: there is none yet, it was cleared by a
   * resize, or it shows a mask last copied into it with `putImageData`.
   */
  datatype FogCache = NoCache | Blank | Showing(mask: Mask)

  datatype SetupOutcome =
    | ElementsMissing    // canvas, video or 2D context not available
    | ContainerNotReady  // zero container dimension: setup is scheduled again
    | MaskFailed         // the display size truncates to 0 pixels and no ImageData can be made
    | Configured

  datatype MouseEvent = MouseDown | MouseMove | MouseUp

  const DefaultBrushSize: real := 50.0
  /** Size of an HTML canvas whose width and height were never assigned. */
  const DefaultCanvasWidth: nat := 300
  const DefaultCanvasHeight: nat := 150

  /** Brush centre and radius in canvas pixels for a point (x, y) relative to the canvas's top-left corner. */
  function StampAt(x: real, y: real, rect: Rect, canvasWidth: nat, canvasHeight: nat, brushSize: real): (s: Stamp)
    requires rect.width != 0.0 && rect.height != 0.0
    ensures s.cx * rect.width == x * canvasWidth as real
    ensures s.cy * rect.height == y * canvasHeight as real
    ensures s.radius * rect.width == brushSize * canvasWidth as real
  {
    var scaleX := canvasWidth as real / rect.width;
    var scaleY := canvasHeight as real / rect.height;
    Stamp(x * scaleX, y * scaleY, brushSize * scaleX)
  }

  /**
   * The mask after one brush stamp as the source computes it: the bounding box ends
   * at `ceil(c + r)`, the canvas's width is the row stride and its size the bounds.
   */
  function BrushedMask(m: Mask, canvasWidth: nat, canvasHeight: nat, s: Stamp): (r: Mask)
    ensures r.width == m.width && r.height == m.height && |r.data| == |m.data|
  {
    Mask(m.width, m.height, Stamped(m.data, canvasWidth, SourceBox(s, canvasWidth, canvasHeight), s))
  }

  /** The mask after one brush stamp whose bounding box holds the whole disc. */
  function CorrectedBrushedMask(m: Mask, canvasWidth: nat, canvasHeight: nat, s: Stamp): (r: Mask)
    ensures r.width == m.width && r.height == m.height && |r.data| == |m.data|
  {
    Mask(m.width, m.height, Stamped(m.data, canvasWidth, FullBox(s, canvasWidth, canvasHeight), s))
  }

  /**
   * When the canvas and the mask have the same size, the brush clears the alpha of
   * exactly those pixels of the disc that lie strictly before `c + r` on both axes,
   * leaves every other alpha and every colour byte as it was, and keeps the mask's size.
   */
  lemma BrushClearsDisc(m: Mask, s: Stamp, px: nat, py: nat)
    requires m.Valid() && s.radius >= 0.0 && px < m.width && py < m.height
    ensures var r := BrushedMask(m, m.width, m.height, s);
      && r.Valid() && r.width == m.width && r.height == m.height
      && Alpha(r, px, py) == (if InDisc(s, px, py) && (px as real) < s.cx + s.radius && (py as real) < s.cy + s.radius
                              then Clear else Alpha(m, px, py))
      && Channel(r, px, py, 0) == Channel(m, px, py, 0)
      && Channel(r, px, py, 1) == Channel(m, px, py, 1)
      && Channel(r, px, py, 2) == Channel(m, px, py, 2)
  {
    StampAtPixel(m, SourceBox(s, m.width, m.height), s, px, py);
    SourceBoxHits(s, m.width, m.height, px, py);
  }

  /**
   * With the corrected bounding box, the brush clears exactly the alpha of the pixels
   * in the disc, leaves every other alpha and every colour byte as it was, and keeps
   * the mask's size.
   */
  lemma CorrectedBrushClearsDisc(m: Mask, s: Stamp, px: nat, py: nat)
    requires m.Valid() && s.radius >= 0.0 && px < m.width && py < m.height
    ensures var r := CorrectedBrushedMask(m, m.width, m.height, s);
      && r.Valid() && r.width == m.width && r.height == m.height
      && Alpha(r, px, py) == (if InDisc(s, px, py) then Clear else Alpha(m, px, py))
      && Channel(r, px, py, 0) == Channel(m, px, py, 0)
      && Channel(r, px, py, 1) == Channel(m, px, py, 1)
      && Channel(r, px, py, 2) == Channel(m, px, py, 2)
  {
    StampAtPixel(m, FullBox(s, m.width, m.height), s, px, py);
    FullBoxHits(s, m.width, m.height, px, py);
  }

  /** A second identical stamp changes nothing. */
  lemma BrushIdempotent(m: Mask, canvasWidth: nat, canvasHeight: nat, s: Stamp)
    ensures BrushedMask(BrushedMask(m, canvasWidth, canvasHeight, s), canvasWidth, canvasHeight, s)
         == BrushedMask(m, canvasWidth, canvasHeight, s)
  {
    StampIdempotent(m.data, canvasWidth, SourceBox(s, canvasWidth, canvasHeight), s);
  }

  /** The mouse-stroke flag after one event. */
  function DrawingAfter(drawing: bool, e: MouseEvent): bool {
    match e
    case MouseDown => true
    case MouseUp => false
    case MouseMove => drawing
  }

  /** The mouse-stroke flag after a sequence of events, starting from false. */
  function DrawingAfterAll(events: seq<MouseEvent>): bool {
    if events == [] then false
    else DrawingAfter(DrawingAfterAll(events[..|events| - 1]), events[|events| - 1])
  }

  /** Some mousedown in `events` is not followed by a mouseup. */
  ghost predicate StrokeOpen(events: seq<MouseEvent>) {
    exists j :: 0 <= j < |events| && events[j] == MouseDown
      && forall k :: j < k < |events| ==> events[k] != MouseUp
  }

  /** A mouse move draws exactly when a mousedown came before it with no mouseup in between. */
  lemma {:induction false} DrawingIffStrokeOpen(events: seq<MouseEvent>)
    ensures DrawingAfterAll(events) <==> StrokeOpen(events)
  {
    if events != [] {
      var n := |events| - 1;
      var init := events[..n];
      DrawingIffStrokeOpen(init);
      match events[n]
      case MouseDown =>
        assert StrokeOpen(events) by {
          assert events[n] == MouseDown;
        }
      case MouseUp =>
      case MouseMove =>
        if StrokeOpen(events) {
          var j :| 0 <= j < |events| && events[j] == MouseDown
            && forall k :: j < k < |events| ==> events[k] != MouseUp;
          assert j < n;
          assert init[j] == MouseDown;
          assert StrokeOpen(init);
        }
        if StrokeOpen(init) {
          var j :| 0 <= j < |init| && init[j] == MouseDown
            && forall k :: j < k < |init| ==> init[k] != MouseUp;
          assert events[j] == MouseDown;
          assert forall k :: j < k < |events| ==> events[k] != MouseUp;
        }
    }
  }

  class HomePage {
    var hasCanvas: bool
    var hasContext: bool
    var hasVideo: bool
    var canvasWidth: nat
    var canvasHeight: nat
    var brushSize: real
    var isDrawing: bool
    var fogMask: Option<Mask>
    var fogMaskDirty: bool
    var fogCache: FogCache

    /** The mask is a proper ImageData, and a clean flag means the cache shows the current mask. */
    ghost predicate Valid()
      reads this
    {
      && (hasContext ==> hasCanvas)
      && (fogMask.Some? ==> fogMask.value.Valid())
      && (fogMask.Some? && !fogMaskDirty && fogCache.Showing? ==> fogCache.mask == fogMask.value)
    }

    /**
     * The page once the view is initialised: which elements were found, and no fog yet.
     * An HTML canvas whose size was never assigned is 300 x 150 pixels.
     */
    constructor (canvasFound: bool, contextObtained: bool, videoFound: bool)
      ensures Valid()
      ensures hasCanvas == canvasFound && hasContext == (canvasFound && contextObtained) && hasVideo == videoFound
      ensures canvasWidth == DefaultCanvasWidth && canvasHeight == DefaultCanvasHeight
      ensures brushSize == DefaultBrushSize && !isDrawing
      ensures fogMask == None && !fogMaskDirty && fogCache == NoCache
    {
      hasCanvas := canvasFound;
      hasContext := canvasFound && contextObtained;
      hasVideo := videoFound;
      canvasWidth, canvasHeight := DefaultCanvasWidth, DefaultCanvasHeight;
      brushSize := DefaultBrushSize;
      isDrawing := false;
      fogMask := None;
      fogMaskDirty := false;
      fogCache := NoCache;
    }

    /** The frame loop composites the fog this frame. */
    predicate DrawsFog(videoReady: bool)
      reads this
    {
      hasCanvas && hasVideo && hasContext && fogMask.Some? && videoReady && fogCache != NoCache
    }

    /**
     * The fog part of one frame: when the mask changed since the last refresh, it is
     * copied into the cached fog canvas and the flag is cleared; the frame then draws
     * the cache. Video drawing and rescheduling are not modelled.
     */
    method DrawFog(videoReady: bool)
      requires Valid()
      modifies this
      ensures Valid()
      ensures fogMask == old(fogMask) && canvasWidth == old(canvasWidth) && canvasHeight == old(canvasHeight)
      ensures isDrawing == old(isDrawing) && brushSize == old(brushSize)
      ensures hasCanvas == old(hasCanvas) && hasContext == old(hasContext) && hasVideo == old(hasVideo)
      ensures !old(DrawsFog(videoReady)) ==> fogMaskDirty == old(fogMaskDirty) && fogCache == old(fogCache)
      ensures old(DrawsFog(videoReady)) ==> !fogMaskDirty
      ensures old(DrawsFog(videoReady)) && old(fogMaskDirty) ==> fogCache == Showing(fogMask.value)
      ensures old(DrawsFog(videoReady)) && !old(fogMaskDirty) ==> fogCache == old(fogCache)
    {
      if !hasCanvas || !hasVideo || !hasContext || fogMask.None? {
        return;
      }
      if videoReady && fogCache != NoCache {
        if fogMaskDirty {
          fogCache := Showing(fogMask.value);
          fogMaskDirty := false;
        }
      }
    }

    /** Conditions under which a brush call reaches the mask. */
    predicate CanBrush(rect: Rect)
      reads this
    {
      hasContext && fogMask.Some? && hasCanvas && rect.width != 0.0 && rect.height != 0.0
    }

    /**
     * One brush stamp at (x, y), relative to the canvas's top-left corner: a copy of
     * the mask with the disc cleared replaces the mask and marks it dirty.
     */
    method RemoveFog(x: real, y: real, rect: Rect)
      requires Valid()
      modifies this
      ensures Valid()
      ensures canvasWidth == old(canvasWidth) && canvasHeight == old(canvasHeight) && fogCache == old(fogCache)
      ensures isDrawing == old(isDrawing) && brushSize == old(brushSize)
      ensures hasCanvas == old(hasCanvas) && hasContext == old(hasContext) && hasVideo == old(hasVideo)
      ensures !old(CanBrush(rect)) ==> fogMask == old(fogMask) && fogMaskDirty == old(fogMaskDirty)
      ensures old(CanBrush(rect)) ==> fogMaskDirty && fogMask == Some(BrushedMask(old(fogMask).value,
        canvasWidth, canvasHeight, StampAt(x, y, rect, canvasWidth, canvasHeight, brushSize)))
    {
      if !hasContext || fogMask.None? || !hasCanvas {
        return;
      }
      if rect.width == 0.0 || rect.height == 0.0 {
        return;
      }
      var s := StampAt(x, y, rect, canvasWidth, canvasHeight, brushSize);
      var box := SourceBox(s, canvasWidth, canvasHeight);
      var updated := ApplyBrush(fogMask.value, canvasWidth, box, s);
      fogMask := Some(updated);
      fogMaskDirty := true;
    }

    method OnMouseDown(clientX: real, clientY: real, rect: Rect)
      requires Valid()
      modifies this
      ensures Valid()
      ensures isDrawing == DrawingAfter(old(isDrawing), MouseDown)
      ensures canvasWidth == old(canvasWidth) && canvasHeight == old(canvasHeight) && fogCache == old(fogCache)
      ensures brushSize == old(brushSize)
      ensures hasCanvas == old(hasCanvas) && hasContext == old(hasContext) && hasVideo == old(hasVideo)
      ensures !old(CanBrush(rect)) ==> fogMask == old(fogMask) && fogMaskDirty == old(fogMaskDirty)
      ensures old(CanBrush(rect)) ==> fogMaskDirty && fogMask == Some(BrushedMask(old(fogMask).value,
        canvasWidth, canvasHeight, StampAt(clientX - rect.left, clientY - rect.top, rect, canvasWidth, canvasHeight, brushSize)))
    {
      isDrawing := true;
      if !hasCanvas {
        return;
      }
      RemoveFog(clientX - rect.left, clientY - rect.top, rect);
    }

    method OnMouseMove(clientX: real, clientY: real, rect: Rect)
      requires Valid()
      modifies this
      ensures Valid()
      ensures isDrawing == DrawingAfter(old(isDrawing), MouseMove)
      ensures canvasWidth == old(canvasWidth) && canvasHeight == old(canvasHeight) && fogCache == old(fogCache)
      ensures brushSize == old(brushSize)
      ensures hasCanvas == old(hasCanvas) && hasContext == old(hasContext) && hasVideo == old(hasVideo)
      ensures !(old(isDrawing) && old(CanBrush(rect))) ==> fogMask == old(fogMask) && fogMaskDirty == old(fogMaskDirty)
      ensures old(isDrawing) && old(CanBrush(rect)) ==> fogMaskDirty && fogMask == Some(BrushedMask(old(fogMask).value,
        canvasWidth, canvasHeight, StampAt(clientX - rect.left, clientY - rect.top, rect, canvasWidth, canvasHeight, brushSize)))
    {
      if !isDrawing {
        return;
      }
      if !hasCanvas {
        return;
      }
      RemoveFog(clientX - rect.left, clientY - rect.top, rect);
    }

    method OnMouseUp()
      modifies this`isDrawing
      ensures isDrawing == DrawingAfter(old(isDrawing), MouseUp)
    {
      isDrawing := false;
    }

    /** The brush size chosen on the slider, as the integer parsed from it. */
    method SetBrushSize(size: int)
      modifies this`brushSize
      ensures brushSize == size as real
    {
      brushSize := size as real;
    }

    /**
     * Refill the fog: a fully opaque mask of the canvas's size replaces the mask and
     * is marked dirty. Nothing happens without a canvas, or when the canvas has no
     * pixels (reading an empty ImageData fails).
     */
    method ResetFog()
      requires Valid()
      modifies this`fogMask, this`fogMaskDirty
      ensures Valid()
      ensures !(hasCanvas && canvasWidth > 0 && canvasHeight > 0) ==> fogMask == old(fogMask) && fogMaskDirty == old(fogMaskDirty)
      ensures hasCanvas && canvasWidth > 0 && canvasHeight > 0 ==>
        fogMaskDirty && fogMask == Some(OpaqueMask(canvasWidth, canvasHeight))
    {
      if !hasCanvas {
        return;
      }
      if canvasWidth == 0 || canvasHeight == 0 {
        return;
      }
      fogMask := Some(OpaqueMask(canvasWidth, canvasHeight));
      fogMaskDirty := true;
    }

    /**
     * Size the canvas for the video once the container is laid out: each container
     * dimension is the first non-zero of its bounding-rectangle, client and window
     * measurements, the display size is the letterbox fit, the backing store is that
     * size times the device pixel ratio, and a fresh fully opaque mask of the display
     * size becomes the fog and the cached fog canvas's content; the frame loop then
     * starts. A display size with a zero side leaves no mask to read (`MaskFailed`).
     */
    method SetupCanvas(containerRect: Size, containerClient: Size, window: Size, video: Size, devicePixelRatio: real, videoReady: bool)
      returns (outcome: SetupOutcome)
      requires Valid()
      requires containerRect.width >= 0.0 && containerRect.height >= 0.0
      requires containerClient.width >= 0.0 && containerClient.height >= 0.0
      requires window.width >= 0.0 && window.height >= 0.0
      requires video.width >= 0.0 && video.height >= 0.0 && devicePixelRatio >= 0.0
      modifies this
      ensures Valid()
      ensures isDrawing == old(isDrawing) && brushSize == old(brushSize)
      ensures hasCanvas == old(hasCanvas) && hasContext == old(hasContext) && hasVideo == old(hasVideo)
      ensures outcome == ElementsMissing <==> !(hasCanvas && hasVideo && hasContext)
      ensures outcome == ContainerNotReady <==>
        hasCanvas && hasVideo && hasContext && ResolveLayout(MeasuredContainer(containerRect, containerClient, window), video).RetryLater?
      ensures outcome in {ElementsMissing, ContainerNotReady} ==>
        canvasWidth == old(canvasWidth) && canvasHeight == old(canvasHeight)
        && fogMask == old(fogMask) && fogMaskDirty == old(fogMaskDirty) && fogCache == old(fogCache)
      ensures outcome in {MaskFailed, Configured} ==>
        var d := ResolveLayout(MeasuredContainer(containerRect, containerClient, window), video).display;
        var backing := BackingSize(d, EffectiveDpr(devicePixelRatio));
        && canvasWidth == CanvasDimension(backing.width) && canvasHeight == CanvasDimension(backing.height)
        && (outcome == Configured <==> CanvasDimension(d.width) > 0 && CanvasDimension(d.height) > 0)
      ensures outcome == MaskFailed ==>
        fogMask == old(fogMask) && fogMaskDirty == old(fogMaskDirty)
        && fogCache == (if old(fogCache) == NoCache then NoCache else Blank)
      ensures outcome == Configured ==>
        var d := ResolveLayout(MeasuredContainer(containerRect, containerClient, window), video).display;
        && fogMask == Some(OpaqueMask(CanvasDimension(d.width), CanvasDimension(d.height)))
        && fogCache == Showing(fogMask.value)
        && fogMaskDirty == (old(fogMaskDirty) && !videoReady)
      ensures !Positive(video) ==> outcome != Configured
    {
      if !hasCanvas || !hasVideo || !hasContext {
        return ElementsMissing;
      }
      var container := MeasuredContainer(containerRect, containerClient, window);
      var layout := ResolveLayout(container, video);
      if layout.RetryLater? {
        return ContainerNotReady;
      }
      var display := layout.display;
      var dpr := EffectiveDpr(devicePixelRatio);
      var backing := BackingSize(display, dpr);
      canvasWidth := CanvasDimension(backing.width);
      canvasHeight := CanvasDimension(backing.height);
      if fogCache != NoCache {
        // resizing the existing cached fog canvas clears it
        fogCache := Blank;
      }
      var maskWidth := CanvasDimension(display.width);
      var maskHeight := CanvasDimension(display.height);
      if maskWidth == 0 || maskHeight == 0 {
        return MaskFailed;
      }
      var mask := OpaqueMask(maskWidth, maskHeight);
      fogMask := Some(mask);
      fogCache := Showing(mask);
      DrawFog(videoReady);
      outcome := Configured;
    }
  }
}
