/**
  The rendering half of a frame, as values: the refraction offset of each
  pixel, the clamped texture lookup, and the output buffer it produces.

  Buffers are row-major RGBA, four bytes per pixel. Reads and writes follow
  the typed arrays of the source: a texture read past the end yields
  `undefined`, which a `Uint8ClampedArray` stores as 0, and a write past the
  end of the output buffer is dropped.
 */
module Refraction {
  import opened JsNumbers
  import opened HeightField
  import Arith

  /** Divisor of the refraction offset; smaller would distort more. */
  const Strength: nat := 1024

  /** `((coord - half) * hgt / 1024) << 0`. */
  function Offset(coord: int, half: int, hgt: int): (r: int)
    ensures IsInt32(r)
    ensures hgt == 0 ==> r == 0
  {
    Int32(TruncDiv((coord - half) * hgt, Strength))
  }

  /**
    The displaced coordinate clamped to `[0, n - 1]`: first capped at
    `n - 1`, then raised to 0.
   */
  function ClampCoord(v: int, n: nat): (r: int)
    ensures n > 0 ==> 0 <= r < n
    ensures 0 <= v < n ==> r == v
    ensures n > 0 && n <= v ==> r == n - 1
    ensures v < 0 ==> r == 0
  {
    var capped := if v >= n then n - 1 else v;
    if capped < 0 then 0 else capped
  }

  /** Index of channel 0 of the texel sampled for pixel `(x, y)` at height `hgt`. */
  function SampleIndex(w: nat, h: nat, halfW: int, halfH: int, x: int, y: int, hgt: int): (s: int)
    ensures hgt == 0 && 0 <= x < w && 0 <= y < h ==> s == 4 * (y * w + x)
  {
    var newX := ClampCoord(x + Offset(x, halfW, hgt), w);
    var newY := ClampCoord(y + Offset(y, halfH, hgt), h);
    (newY * w + newX) * 4
  }

  /**
    Whatever the height, the sampled texel is a pixel of the `w` by `h`
    picture: channels 0 to 3 of it lie in `[0, w * h * 4)`.
   */
  lemma SampleInBounds(w: nat, h: nat, halfW: int, halfH: int, x: int, y: int, hgt: int, c: int)
    requires 0 < w && 0 < h && 0 <= c < 4
    ensures 0 <= SampleIndex(w, h, halfW, halfH, x, y, hgt) + c < w * h * 4
    ensures SampleIndex(w, h, halfW, halfH, x, y, hgt) % 4 == 0
  {
    var newX := ClampCoord(x + Offset(x, halfW, hgt), w);
    var newY := ClampCoord(y + Offset(y, halfH, hgt), h);
    Arith.MulMonotone(0, newY, w);
    Arith.MulMonotone(newY + 1, h, w);
    assert (newY + 1) * w == newY * w + w;
  }

  /** A texture read: out of range it yields `undefined`, stored as 0. */
  function Texel(tex: seq<byte>, i: int): (t: byte)
    ensures 0 <= i < |tex| ==> t == tex[i]
    ensures i < 0 || |tex| <= i ==> t == 0
  {
    if 0 <= i < |tex| then tex[i] else 0
  }

  /**
    Byte `i` of the output buffer after a frame in which the current map is
    `r` and the previous map `l`: channels 0 to 2 of each picture pixel take
    the texel at the displaced position, or the same-position texel when the
    new height is 0; alpha and bytes beyond the picture keep their value in `o`.
   */
  function RenderAt(o: seq<byte>, tex: seq<byte>, r: seq<int>, l: seq<int>,
                    w: nat, h: nat, halfW: int, halfH: int, i: int): byte
    requires |r| == |l| && w * (h + 2) <= |l| && 0 <= i < |o|
  {
    if i < 4 * (w * h) && i % 4 < 3 then
      var p := i / 4;
      PixelInPicture(w, h, p);
      var hgt := NewHeight(r, l, w, w + p);
      if hgt != 0 then Texel(tex, SampleIndex(w, h, halfW, halfH, p % w, p / w, hgt) + i % 4)
      else Texel(tex, i)
    else
      o[i]
  }

  /** The output buffer `o` after one frame. */
  function RenderOut(o: seq<byte>, tex: seq<byte>, r: seq<int>, l: seq<int>,
                     w: nat, h: nat, halfW: int, halfH: int): (s: seq<byte>)
    requires |r| == |l| && w * (h + 2) <= |l|
    ensures |s| == |o|
  {
    seq(|o|, i requires 0 <= i < |o| => RenderAt(o, tex, r, l, w, h, halfW, halfH, i))
  }

  /** Pixel number `p < w * h` is `(p % w, p / w)`, and its sample is `w + p`. */
  lemma PixelInPicture(w: nat, h: nat, p: int)
    requires 0 <= p < w * h
    ensures 0 < w && 0 <= p % w < w && 0 <= p / w < h
    ensures MapIndex(w, p % w, p / w) == w + p
    ensures 0 < w <= w + p && w + p + w < w * (h + 2)
  {
    assert w != 0;
    var x, y := p % w, p / w;
    assert p == y * w + x;
    assert y < h by {
      if h <= y {
        Arith.MulMonotone(h, y, w);
      }
    }
    NeighboursInBounds(w, h, x, y);
  }

  /** Pixel `(x, y)` is pixel number `y * w + x`, and its channel `c` is byte `4 * (y * w + x) + c`. */
  lemma PixelChannel(w: nat, h: nat, x: int, y: int, c: int)
    requires 0 <= x < w && 0 <= y < h && 0 <= c < 4
    ensures var p := y * w + x;
      0 <= p < w * h && p % w == x && p / w == y &&
      (4 * p + c) / 4 == p && (4 * p + c) % 4 == c && 4 * p + c < 4 * (w * h)
  {
    RowColumn(w, y, x);
    Arith.MulMonotone(0, y, w);
    Arith.MulMonotone(y + 1, h, w);
    assert (y + 1) * w == y * w + w;
  }

  /**
    Index of channel 0 of the texel pixel `(x, y)` shows after a frame: the
    displaced, clamped position when its new height is non-zero, else the
    pixel's own position.
   */
  function PixelSource(r: seq<int>, l: seq<int>, w: nat, h: nat, halfW: int, halfH: int, x: int, y: int): int
    requires |r| == |l| && w * (h + 2) <= |l|
    requires 0 <= x < w && 0 <= y < h
  {
    NeighboursInBounds(w, h, x, y);
    var hgt := NewHeight(r, l, w, MapIndex(w, x, y));
    if hgt != 0 then SampleIndex(w, h, halfW, halfH, x, y, hgt) else 4 * (y * w + x)
  }

  /** Channel `c` of pixel `(x, y)` after a frame is channel `c` of the texel at `PixelSource`. */
  lemma PixelSample(o: seq<byte>, tex: seq<byte>, r: seq<int>, l: seq<int>,
                    w: nat, h: nat, halfW: int, halfH: int, x: int, y: int, c: int)
    requires |r| == |l| && w * (h + 2) <= |l|
    requires 0 <= x < w && 0 <= y < h && 0 <= c < 3
    requires 4 * (y * w + x) + c < |o|
    ensures RenderAt(o, tex, r, l, w, h, halfW, halfH, 4 * (y * w + x) + c) ==
      Texel(tex, PixelSource(r, l, w, h, halfW, halfH, x, y) + c)
  {
    PixelChannel(w, h, x, y, c);
    NeighboursInBounds(w, h, x, y);
  }

  /**
    A pixel whose new height is 0 copies the same-position texel into
    channels 0 to 2.
   */
  lemma FlatPixelCopiesTexel(o: seq<byte>, tex: seq<byte>, r: seq<int>, l: seq<int>,
                             w: nat, h: nat, halfW: int, halfH: int, x: int, y: int, c: int)
    requires |r| == |l| && w * (h + 2) <= |l|
    requires 0 <= x < w && 0 <= y < h && 0 <= c < 3
    requires 4 * (y * w + x) + c < |o|
    requires NewHeight(r, l, w, MapIndex(w, x, y)) == 0
    ensures RenderOut(o, tex, r, l, w, h, halfW, halfH)[4 * (y * w + x) + c] == Texel(tex, 4 * (y * w + x) + c)
  {
    PixelChannel(w, h, x, y, c);
    NeighboursInBounds(w, h, x, y);
  }

  /** A frame never writes the alpha channel nor any byte beyond the picture. */
  lemma RenderKeepsAlpha(o: seq<byte>, tex: seq<byte>, r: seq<int>, l: seq<int>,
                         w: nat, h: nat, halfW: int, halfH: int, i: int)
    requires |r| == |l| && w * (h + 2) <= |l| && 0 <= i < |o|
    requires i % 4 == 3 || 4 * (w * h) <= i
    ensures RenderOut(o, tex, r, l, w, h, halfW, halfH)[i] == o[i]
  {
  }

  /**
    Rest state: with both maps flat, a frame copies the texture's colour
    channels into the output; if the output already held the texture (as it
    does right after capture) it holds it exactly afterwards.
   */
  lemma RestFrameShowsTexture(o: seq<byte>, tex: seq<byte>, r: seq<int>, l: seq<int>,
                               w: nat, h: nat, halfW: int, halfH: int)
    requires |r| == |l| && w * (h + 2) <= |l|
    requires AllZero(r) && AllZero(l)
    requires |o| == |tex| == 4 * (w * h)
    ensures forall i :: 0 <= i < |o| && i % 4 < 3 ==> RenderOut(o, tex, r, l, w, h, halfW, halfH)[i] == tex[i]
    ensures o == tex ==> RenderOut(o, tex, r, l, w, h, halfW, halfH) == tex
  {
    forall i | 0 <= i < |o| && i % 4 < 3
      ensures RenderOut(o, tex, r, l, w, h, halfW, halfH)[i] == tex[i]
    {
      PixelInPicture(w, h, i / 4);
      assert NewHeight(r, l, w, w + i / 4) == 0;
    }
  }
}
