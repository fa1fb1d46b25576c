/**
 * The circular "scratch-off" brush of the home page (src/app/home/home.page.ts,
 * removeFog): a copy of the mask in which the alpha byte of every pixel of a
 * disc, searched inside a bounding box clamped to the canvas, is set to 0.
 */
module Brush {

  import opened Raster

  /** Centre and radius of one brush stamp, in canvas pixels. */
  datatype Stamp = Stamp(cx: real, cy: real, radius: real)

  /** The half-open pixel rectangle [minX, maxX) x [minY, maxY) that the two loops visit. */
  datatype Box = Box(minX: int, maxX: int, minY: int, maxY: int)

  function Max(a: int, b: int): int {
    if a >= b then a else b
  }

  function Min(a: int, b: int): int {
    if a <= b then a else b
  }

  /** `Math.ceil`. */
  function Ceil(x: real): (c: int)
    ensures x <= c as real < x + 1.0
  {
    -((-x).Floor)
  }

  /** The box lies inside a width x height canvas, so no loop coordinate leaves it. */
  predicate InsideCanvas(b: Box, width: nat, height: nat) {
    0 <= b.minX && b.maxX <= width && 0 <= b.minY && b.maxY <= height
  }

  /** The bounding box as the source computes it, with `ceil(c + r)` as the exclusive upper bound. */
  function SourceBox(s: Stamp, width: nat, height: nat): (b: Box)
    ensures InsideCanvas(b, width, height)
  {
    Box(Max(0, (s.cx - s.radius).Floor), Min(width, Ceil(s.cx + s.radius)),
        Max(0, (s.cy - s.radius).Floor), Min(height, Ceil(s.cy + s.radius)))
  }

  /** The bounding box with `floor(c + r) + 1` as the exclusive upper bound, so that it holds the whole disc. */
  function FullBox(s: Stamp, width: nat, height: nat): (b: Box)
    ensures InsideCanvas(b, width, height)
  {
    Box(Max(0, (s.cx - s.radius).Floor), Min(width, (s.cx + s.radius).Floor + 1),
        Max(0, (s.cy - s.radius).Floor), Min(height, (s.cy + s.radius).Floor + 1))
  }

  /** `dx * dx + dy * dy <= radiusSquared`. */
  predicate InDisc(s: Stamp, px: int, py: int) {
    (px as real - s.cx) * (px as real - s.cx) + (py as real - s.cy) * (py as real - s.cy) <= s.radius * s.radius
  }

  /** Pixel (px, py) is visited by the loops and lies in the disc. */
  predicate Hits(b: Box, s: Stamp, px: int, py: int) {
    b.minX <= px < b.maxX && b.minY <= py < b.maxY && InDisc(s, px, py)
  }

  /** Byte `i` of a buffer with row stride `stride` is an alpha byte that the stamp clears. */
  predicate Clears(stride: nat, b: Box, s: Stamp, i: nat) {
    stride > 0 && i % 4 == 3 && Hits(b, s, Column(stride, i), Row(stride, i))
  }

  /** The buffer after the stamp: cleared alpha bytes are 0, every other byte is copied. */
  function Stamped(data: seq<Byte>, stride: nat, b: Box, s: Stamp): (r: seq<Byte>)
    ensures |r| == |data|
    ensures forall i | 0 <= i < |data| && i % 4 != 3 :: r[i] == data[i]
  {
    seq(|data|, i requires 0 <= i < |data| => if Clears(stride, b, s, i) then Clear else data[i])
  }

  /** The pixel of byte `i` comes before (y, x) in the row-major order of the loops. */
  predicate Visited(stride: nat, i: nat, y: int, x: int) {
    stride > 0 && (Row(stride, i) < y || (Row(stride, i) == y && Column(stride, i) < x))
  }

  /** The buffer once the loops have visited every pixel before (y, x). */
  function PartlyStamped(data: seq<Byte>, stride: nat, b: Box, s: Stamp, y: int, x: int): seq<Byte> {
    seq(|data|, i requires 0 <= i < |data| => if Clears(stride, b, s, i) && Visited(stride, i, y, x) then Clear else data[i])
  }

  lemma StartUnstamped(data: seq<Byte>, stride: nat, b: Box, s: Stamp)
    ensures PartlyStamped(data, stride, b, s, b.minY, b.minX) == data
  {
    var p := PartlyStamped(data, stride, b, s, b.minY, b.minX);
    forall i | 0 <= i < |data| ensures p[i] == data[i] {
    }
  }

  lemma StepPixel(data: seq<Byte>, stride: nat, b: Box, s: Stamp, y: int, x: int)
    requires 0 <= b.minX <= x < b.maxX <= stride && 0 <= b.minY <= y < b.maxY
    ensures var k := ByteIndex(stride, x, y, 3);
      var before := PartlyStamped(data, stride, b, s, y, x);
      PartlyStamped(data, stride, b, s, y, x + 1)
        == if InDisc(s, x, y) && k < |data| then before[k := Clear] else before
  {
    var k := ByteIndex(stride, x, y, 3);
    ByteIndexDecodes(stride, x, y, 3);
    var before := PartlyStamped(data, stride, b, s, y, x);
    var after := PartlyStamped(data, stride, b, s, y, x + 1);
    var expected := if InDisc(s, x, y) && k < |data| then before[k := Clear] else before;
    forall i | 0 <= i < |data| ensures after[i] == expected[i] {
      if Row(stride, i) == y && Column(stride, i) == x && i % 4 == 3 {
        ByteIndexEncodes(stride, i);
        assert i == k;
      }
    }
  }

  lemma StepRow(data: seq<Byte>, stride: nat, b: Box, s: Stamp, y: int, x: int)
    requires x >= b.maxX
    ensures PartlyStamped(data, stride, b, s, y, x) == PartlyStamped(data, stride, b, s, y + 1, b.minX)
  {
    var p := PartlyStamped(data, stride, b, s, y, x);
    var q := PartlyStamped(data, stride, b, s, y + 1, b.minX);
    forall i | 0 <= i < |data| ensures p[i] == q[i] {
    }
  }

  lemma EndStamped(data: seq<Byte>, stride: nat, b: Box, s: Stamp, y: int)
    requires y >= b.maxY
    ensures PartlyStamped(data, stride, b, s, y, b.minX) == Stamped(data, stride, b, s)
  {
    var p := PartlyStamped(data, stride, b, s, y, b.minX);
    var q := Stamped(data, stride, b, s);
    forall i | 0 <= i < |data| ensures p[i] == q[i] {
    }
  }

  /** The body of the inner loop: clear the alpha byte of (px, py) when the pixel lies in the disc. */
  method ClearIfInDisc(a: array<Byte>, stride: nat, s: Stamp, px: nat, py: nat)
    modifies a
    ensures var k := ByteIndex(stride, px, py, 3);
      a[..] == if InDisc(s, px, py) && k < a.Length then old(a[..])[k := Clear] else old(a[..])
  {
    var dx := px as real - s.cx;
    var dy := py as real - s.cy;
    if dx * dx + dy * dy <= s.radius * s.radius {
      var index := (py * stride + px) * 4;
      if index + 3 < a.Length {
        a[index + 3] := Clear;
      }
    }
  }

  /**
   * The two loops of the brush over a fresh copy of the mask. Each pixel of the box
   * in the disc has the byte at `(py * stride + px) * 4 + 3` set to 0; a write past
   * the end of the buffer is dropped, as a typed-array store out of range is.
   */
  method ApplyBrush(m: Mask, stride: nat, b: Box, s: Stamp) returns (updated: Mask)
    requires 0 <= b.minX && b.maxX <= stride && 0 <= b.minY
    ensures updated == Mask(m.width, m.height, Stamped(m.data, stride, b, s))
  {
    var a := new Byte[|m.data|](i requires 0 <= i < |m.data| => m.data[i]);
    assert a[..] == m.data;
    StartUnstamped(m.data, stride, b, s);
    var py := b.minY;
    while py < b.maxY
      invariant b.minY <= py
      invariant a[..] == PartlyStamped(m.data, stride, b, s, py, b.minX)
    {
      var px := b.minX;
      while px < b.maxX
        invariant b.minX <= px
        invariant a[..] == PartlyStamped(m.data, stride, b, s, py, px)
      {
        StepPixel(m.data, stride, b, s, py, px);
        ClearIfInDisc(a, stride, s, px, py);
        px := px + 1;
      }
      StepRow(m.data, stride, b, s, py, px);
      py := py + 1;
    }
    EndStamped(m.data, stride, b, s, py);
    updated := Mask(m.width, m.height, a[..]);
  }

  /** The stamp changes nothing but alpha bytes, and only to 0: no byte ever increases. */
  lemma StampOnlyClearsAlpha(data: seq<Byte>, stride: nat, b: Box, s: Stamp)
    ensures var r := Stamped(data, stride, b, s);
      && |r| == |data|
      && (forall i | 0 <= i < |data| :: r[i] != data[i] ==> i % 4 == 3 && r[i] == Clear)
      && (forall i | 0 <= i < |data| :: r[i] <= data[i])
  {
  }

  /** Stamping twice with the same arguments is stamping once. */
  lemma StampIdempotent(data: seq<Byte>, stride: nat, b: Box, s: Stamp)
    ensures Stamped(Stamped(data, stride, b, s), stride, b, s) == Stamped(data, stride, b, s)
  {
    var once := Stamped(data, stride, b, s);
    var twice := Stamped(once, stride, b, s);
    forall i | 0 <= i < |data| ensures twice[i] == once[i] {
    }
  }

  /** The order of two stamps does not matter: a stroke reveals the union of its discs. */
  lemma StampsCommute(data: seq<Byte>, stride: nat, b1: Box, s1: Stamp, b2: Box, s2: Stamp)
    ensures Stamped(Stamped(data, stride, b1, s1), stride, b2, s2)
         == Stamped(Stamped(data, stride, b2, s2), stride, b1, s1)
  {
    var p := Stamped(Stamped(data, stride, b1, s1), stride, b2, s2);
    var q := Stamped(Stamped(data, stride, b2, s2), stride, b1, s1);
    forall i | 0 <= i < |data| ensures p[i] == q[i] {
    }
  }

  /**
   * With the mask's own width as the row stride, a pixel's alpha becomes 0 exactly
   * when the pixel is hit, and stays as it was otherwise; its colour is untouched.
   */
  lemma StampAtPixel(m: Mask, b: Box, s: Stamp, px: nat, py: nat)
    requires m.Valid() && px < m.width && py < m.height
    ensures var r := Mask(m.width, m.height, Stamped(m.data, m.width, b, s));
      && r.Valid()
      && Alpha(r, px, py) == (if Hits(b, s, px, py) then Clear else Alpha(m, px, py))
      && Channel(r, px, py, 0) == Channel(m, px, py, 0)
      && Channel(r, px, py, 1) == Channel(m, px, py, 1)
      && Channel(r, px, py, 2) == Channel(m, px, py, 2)
  {
    forall c: nat | c < 4
      ensures ByteIndex(m.width, px, py, c) < |m.data|
      ensures var i := ByteIndex(m.width, px, py, c);
        i % 4 == c && Column(m.width, i) == px && Row(m.width, i) == py
    {
      PixelInBuffer(m, px, py, c);
      ByteIndexDecodes(m.width, px, py, c);
    }
  }

  /** A point of a disc of non-negative radius is at most the radius away from the centre along each axis. */
  lemma DiscWithinRadius(s: Stamp, px: int, py: int)
    requires s.radius >= 0.0 && InDisc(s, px, py)
    ensures s.cx - s.radius <= px as real <= s.cx + s.radius
    ensures s.cy - s.radius <= py as real <= s.cy + s.radius
  {
    var dx, dy := px as real - s.cx, py as real - s.cy;
    assert dx * dx <= s.radius * s.radius && dy * dy <= s.radius * s.radius;
    AxisBound(dx, s.radius);
    AxisBound(dy, s.radius);
  }

  lemma AxisBound(d: real, r: real)
    requires r >= 0.0 && d * d <= r * r
    ensures -r <= d <= r
  {
    if d > r {
      SquareGrows(d, r);
    } else if d < -r {
      SquareGrows(-d, r);
    }
  }

  lemma SquareGrows(a: real, b: real)
    requires a > b >= 0.0
    ensures a * a > b * b
  {
    assert a * a - b * b == (a - b) * (a + b);
    ProductPositive(a - b, a + b);
  }

  lemma ProductPositive(a: real, b: real)
    requires a > 0.0 && b > 0.0
    ensures a * b > 0.0
  {
  }

  /**
   * What the source's box lets through: within the canvas and for a non-negative
   * radius, a pixel is cleared exactly when it lies in the disc and strictly left
   * of and above `c + r`; the disc's rightmost column and bottom row are lost.
   */
  lemma SourceBoxHits(s: Stamp, width: nat, height: nat, px: nat, py: nat)
    requires s.radius >= 0.0 && px < width && py < height
    ensures Hits(SourceBox(s, width, height), s, px, py)
        <==> InDisc(s, px, py) && (px as real) < s.cx + s.radius && (py as real) < s.cy + s.radius
  {
    if InDisc(s, px, py) {
      DiscWithinRadius(s, px, py);
    }
    CeilBound(px, s.cx + s.radius);
    CeilBound(py, s.cy + s.radius);
  }

  /** An integer is below `ceil(t)` exactly when it is below t. */
  lemma CeilBound(n: int, t: real)
    ensures n < Ceil(t) <==> (n as real) < t
  {
    if (n as real) < t {
      assert (n as real) < Ceil(t) as real;
    }
  }

  /** The corrected box holds the whole disc: inside the canvas a pixel is cleared exactly when it lies in the disc. */
  lemma FullBoxHits(s: Stamp, width: nat, height: nat, px: nat, py: nat)
    requires s.radius >= 0.0 && px < width && py < height
    ensures Hits(FullBox(s, width, height), s, px, py) <==> InDisc(s, px, py)
  {
    if InDisc(s, px, py) {
      DiscWithinRadius(s, px, py);
      assert px <= (s.cx + s.radius).Floor;
      assert py <= (s.cy + s.radius).Floor;
    }
  }

  /**
   * The source's box misses part of the disc: for a stamp of radius 5 centred on
   * (10, 10) of a 100 x 100 canvas, pixel (15, 10) lies on the disc and stays fogged,
   * while its mirror image (5, 10) is cleared.
   */
  lemma SourceBoxMissesDiscEdge()
    ensures var s := Stamp(10.0, 10.0, 5.0);
      && InDisc(s, 15, 10) && !Hits(SourceBox(s, 100, 100), s, 15, 10)
      && InDisc(s, 5, 10) && Hits(SourceBox(s, 100, 100), s, 5, 10)
  {
    var s := Stamp(10.0, 10.0, 5.0);
    assert Ceil(15.0) == 15;
    assert (5.0).Floor == 5;
  }
}
