/**
 * The fog mask of the home page (src/app/home/home.page.ts): an RGBA pixel
 * buffer as a canvas ImageData holds it, row after row, four bytes per pixel.
 * Only the alpha byte matters: 255 hides the video, 0 reveals it.
 */
module Raster {

  /** An element of the clamped byte array behind an ImageData. */
  newtype Byte = b: int | 0 <= b < 256

  const Opaque: Byte := 255
  const Clear: Byte := 0

  datatype Mask = Mask(width: nat, height: nat, data: seq<Byte>)
  {
    /** An ImageData is never empty and holds exactly four bytes per pixel. */
    predicate Valid() {
      width > 0 && height > 0 && |data| == width * height * 4
    }
  }

  /** Index of channel `channel` (0 red, 1 green, 2 blue, 3 alpha) of pixel (px, py) in a row stride of `stride` pixels. */
  function ByteIndex(stride: nat, px: nat, py: nat, channel: nat): nat {
    (py * stride + px) * 4 + channel
  }

  /** Column of the pixel that byte `i` belongs to. */
  function Column(stride: nat, i: nat): nat
    requires stride > 0
  {
    (i / 4) % stride
  }

  /** Row of the pixel that byte `i` belongs to. */
  function Row(stride: nat, i: nat): nat
    requires stride > 0
  {
    (i / 4) / stride
  }

  lemma DivModUnique(n: int, d: int, q: int, r: int)
    requires d > 0 && 0 <= r < d && n == q * d + r
    ensures n / d == q && n % d == r
  {
    var q', r' := n / d, n % d;
    assert n == q' * d + r';
    var k := q - q';
    assert k * d == r' - r by {
      assert q * d - q' * d == (q - q') * d;
    }
  }

  /** The channel and the pixel number can be read back from a byte index. */
  lemma ByteIndexChannel(stride: nat, px: nat, py: nat, channel: nat)
    requires channel < 4
    ensures ByteIndex(stride, px, py, channel) % 4 == channel
    ensures ByteIndex(stride, px, py, channel) / 4 == py * stride + px
  {
    DivModUnique(ByteIndex(stride, px, py, channel), 4, py * stride + px, channel);
  }

  /** Byte indices and pixel coordinates determine each other. */
  lemma ByteIndexDecodes(stride: nat, px: nat, py: nat, channel: nat)
    requires px < stride && channel < 4
    ensures var i := ByteIndex(stride, px, py, channel);
      i % 4 == channel && Column(stride, i) == px && Row(stride, i) == py
  {
    ByteIndexChannel(stride, px, py, channel);
    DivModUnique(py * stride + px, stride, py, px);
  }

  /** Every byte index of a stride-`stride` buffer is the index of its own column, row and channel. */
  lemma ByteIndexEncodes(stride: nat, i: nat)
    requires stride > 0
    ensures ByteIndex(stride, Column(stride, i), Row(stride, i), i % 4) == i
  {
    var p := i / 4;
    assert p == (p / stride) * stride + p % stride;
  }

  /** Channel `channel` of pixel (px, py) of a well-formed mask. */
  function Channel(m: Mask, px: nat, py: nat, channel: nat): Byte
    requires m.Valid() && px < m.width && py < m.height && channel < 4
  {
    PixelInBuffer(m, px, py, channel);
    m.data[ByteIndex(m.width, px, py, channel)]
  }

  /** Alpha of pixel (px, py) of a well-formed mask. */
  function Alpha(m: Mask, px: nat, py: nat): Byte
    requires m.Valid() && px < m.width && py < m.height
  {
    Channel(m, px, py, 3)
  }

  lemma PixelInBuffer(m: Mask, px: nat, py: nat, channel: nat)
    requires m.Valid() && px < m.width && py < m.height && channel < 4
    ensures ByteIndex(m.width, px, py, channel) < |m.data|
  {
    assert py * m.width + px < m.width * m.height by {
      assert py * m.width <= (m.height - 1) * m.width;
    }
  }

  /**
   * A fresh width x height mask filled with opaque black, as `fillRect` with
   * rgba(0, 0, 0, 1.0) followed by `getImageData` produces it.
   */
  function OpaqueMask(width: nat, height: nat): (m: Mask)
    requires width > 0 && height > 0
    ensures m.Valid() && m.width == width && m.height == height
  {
    Mask(width, height, seq(width * height * 4, i => if i % 4 == 3 then Opaque else Clear))
  }

  /** Every pixel of a fresh mask is (0, 0, 0, 255): the whole video is hidden. */
  lemma OpaqueMaskIsFogged(width: nat, height: nat, px: nat, py: nat)
    requires width > 0 && height > 0 && px < width && py < height
    ensures var m := OpaqueMask(width, height);
      Alpha(m, px, py) == Opaque
      && Channel(m, px, py, 0) == Clear && Channel(m, px, py, 1) == Clear && Channel(m, px, py, 2) == Clear
  {
    var m := OpaqueMask(width, height);
    forall c: nat | c < 4
      ensures Channel(m, px, py, c) == if c == 3 then Opaque else Clear
    {
      PixelInBuffer(m, px, py, c);
      ByteIndexChannel(width, px, py, c);
    }
  }
}
