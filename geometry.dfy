/**
 * Letterbox geometry of the home page (src/app/home/home.page.ts, setupCanvas):
 * fitting a video of intrinsic size videoWidth x videoHeight into the canvas
 * container while keeping its aspect ratio, and the canvas sizes derived from it.
 * Sizes are exact reals; IEEE rounding is not modelled.
 */
module Geometry {

  datatype Size = Size(width: real, height: real)

  /** Outcome of resolving the display size: the container is not laid out yet, or a fitted size. */
  datatype Layout = RetryLater | Fitted(display: Size)

  predicate Positive(s: Size) {
    s.width > 0.0 && s.height > 0.0
  }

  function Min(a: real, b: real): real {
    if a <= b then a else b
  }

  /** `rect || client || window`: the first non-zero of three measurements of one dimension. */
  function FirstNonZero(rectSize: real, clientSize: real, windowSize: real): (r: real)
    ensures r == 0.0 <==> rectSize == 0.0 && clientSize == 0.0 && windowSize == 0.0
    ensures r == rectSize || r == clientSize || r == windowSize
    ensures rectSize != 0.0 ==> r == rectSize
    ensures rectSize == 0.0 && clientSize != 0.0 ==> r == clientSize
    ensures rectSize == 0.0 && clientSize == 0.0 ==> r == windowSize
  {
    if rectSize != 0.0 then rectSize else if clientSize != 0.0 then clientSize else windowSize
  }

  /** The size before the two bound checks: the longer side of the video is fitted first. */
  function InitialFit(container: Size, video: Size): Size
    requires Positive(container) && Positive(video)
  {
    var aspect := video.width / video.height;
    if video.width > video.height then
      var w := Min(container.width, container.height * aspect);
      Size(w, w / aspect)
    else
      var h := Min(container.height, container.width / aspect);
      Size(h * aspect, h)
  }

  /** The display size as the source computes it: the initial fit followed by the two clamps. */
  function FitVideo(container: Size, video: Size): (d: Size)
    requires Positive(container) && Positive(video)
  {
    var aspect := video.width / video.height;
    var d0 := InitialFit(container, video);
    var d1 := if d0.width > container.width then Size(container.width, container.width / aspect) else d0;
    if d1.height > container.height then Size(container.height * aspect, container.height) else d1
  }

  /** The initial fit already lies inside the container, keeps the aspect ratio and touches one side. */
  lemma InitialFitIsLetterbox(container: Size, video: Size)
    requires Positive(container) && Positive(video)
    ensures var d := InitialFit(container, video);
      && Positive(d)
      && d.width <= container.width && d.height <= container.height
      && d.width * video.height == d.height * video.width
      && (d.width == container.width || d.height == container.height)
  {
    var aspect := video.width / video.height;
    assert aspect > 0.0;
    assert aspect * video.height == video.width;
    var d := InitialFit(container, video);
    if video.width > video.height {
      var w := Min(container.width, container.height * aspect);
      assert d == Size(w, w / aspect);
      assert (w / aspect) * aspect == w;
      if w == container.height * aspect {
        assert w / aspect == container.height;
      } else {
        assert w == container.width && w <= container.height * aspect;
        assert w / aspect <= container.height * aspect / aspect;
      }
      calc {
        d.height * video.width;
        (w / aspect) * (aspect * video.height);
        ((w / aspect) * aspect) * video.height;
        w * video.height;
      }
    } else {
      var h := Min(container.height, container.width / aspect);
      assert d == Size(h * aspect, h);
      if h == container.width / aspect {
        assert h * aspect == container.width;
      } else {
        assert h == container.height && h <= container.width / aspect;
        assert h * aspect <= (container.width / aspect) * aspect;
      }
      calc {
        d.width * video.height;
        (h * aspect) * video.height;
        h * (aspect * video.height);
        h * video.width;
      }
    }
  }

  /** In exact arithmetic the clamps of the source never fire: the result is the initial fit. */
  lemma ClampsAreInert(container: Size, video: Size)
    requires Positive(container) && Positive(video)
    ensures FitVideo(container, video) == InitialFit(container, video)
  {
    InitialFitIsLetterbox(container, video);
  }

  /** The display size keeps the video's aspect ratio, fits the container and touches one of its sides. */
  lemma FitVideoIsLetterbox(container: Size, video: Size)
    requires Positive(container) && Positive(video)
    ensures var d := FitVideo(container, video);
      && Positive(d)
      && d.width / d.height == video.width / video.height
      && d.width <= container.width && d.height <= container.height
      && (d.width == container.width || d.height == container.height)
  {
    InitialFitIsLetterbox(container, video);
    ClampsAreInert(container, video);
    var d := FitVideo(container, video);
    EqualCrossProducts(d.width, d.height, video.width, video.height);
  }

  /** Two fractions with positive denominators are equal when their cross products are. */
  lemma EqualCrossProducts(a: real, b: real, c: real, e: real)
    requires b > 0.0 && e > 0.0 && a * e == b * c
    ensures a / b == c / e
  {
    var q := a / b;
    assert a == q * b;
    assert c * b == (q * e) * b;
    assert c == q * e;
  }

  /** A landscape video is fitted by its width, any other by its height. */
  lemma FitVideoFitsLongerSide(container: Size, video: Size)
    requires Positive(container) && Positive(video)
    ensures var aspect := video.width / video.height;
      var d := FitVideo(container, video);
      if video.width > video.height then d.width == Min(container.width, container.height * aspect)
      else d.height == Min(container.height, container.width / aspect)
  {
    ClampsAreInert(container, video);
  }

  /** The container size setupCanvas works with: each dimension is the first non-zero of its three measurements. */
  function MeasuredContainer(rect: Size, client: Size, window: Size): Size {
    Size(FirstNonZero(rect.width, client.width, window.width), FirstNonZero(rect.height, client.height, window.height))
  }

  /**
   * The display size the source's floating-point arithmetic gives for a video with a
   * zero dimension: a zero height makes the aspect ratio infinite (the container's
   * width, height 0), a zero width makes it 0 (width 0, the container's height), and
   * 0 x 0 makes every size NaN, which a canvas dimension stores as 0.
   */
  function DegenerateFit(container: Size, video: Size): (d: Size)
    requires Positive(container) && video.width >= 0.0 && video.height >= 0.0 && !Positive(video)
    ensures d.width == 0.0 || d.height == 0.0
    ensures 0.0 <= d.width <= container.width && 0.0 <= d.height <= container.height
    ensures d.width * video.height == d.height * video.width
  {
    if video.width > 0.0 then Size(container.width, 0.0)
    else if video.height > 0.0 then Size(0.0, container.height)
    else Size(0.0, 0.0)
  }

  /**
   * The display-size step of setupCanvas: a zero container dimension means the layout
   * is not ready and setup is retried later; otherwise the video is fitted, and a
   * video with a zero dimension gets a display size with a zero side.
   */
  function ResolveLayout(container: Size, video: Size): (l: Layout)
    requires container.width >= 0.0 && container.height >= 0.0
    requires video.width >= 0.0 && video.height >= 0.0
    ensures l.RetryLater? <==> container.width == 0.0 || container.height == 0.0
    ensures l.Fitted? ==> 0.0 <= l.display.width <= container.width && 0.0 <= l.display.height <= container.height
    ensures l.Fitted? ==> l.display.width * video.height == l.display.height * video.width
    ensures l.Fitted? ==> (Positive(l.display) <==> Positive(video))
  {
    if container.width == 0.0 || container.height == 0.0 then RetryLater
    else if !Positive(video) then Fitted(DegenerateFit(container, video))
    else
      InitialFitIsLetterbox(container, video);
      ClampsAreInert(container, video);
      Fitted(FitVideo(container, video))
  }

  /** `window.devicePixelRatio || 1`. */
  function EffectiveDpr(devicePixelRatio: real): (dpr: real)
    requires devicePixelRatio >= 0.0
    ensures dpr > 0.0
    ensures devicePixelRatio != 0.0 ==> dpr == devicePixelRatio
    ensures devicePixelRatio == 0.0 ==> dpr == 1.0
  {
    if devicePixelRatio == 0.0 then 1.0 else devicePixelRatio
  }

  /** Backing-store size of the visible canvas: the display size times the device pixel ratio. */
  function BackingSize(display: Size, dpr: real): (b: Size)
    requires dpr > 0.0
    ensures b.width / dpr == display.width && b.height / dpr == display.height
    ensures b.width * display.height == b.height * display.width
  {
    Size(display.width * dpr, display.height * dpr)
  }

  /** Assigning a non-negative length to a canvas's width or height keeps its integer part. */
  function CanvasDimension(x: real): (n: nat)
    requires x >= 0.0
    ensures n as real <= x < n as real + 1.0
  {
    x.Floor
  }
}
