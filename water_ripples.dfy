/**
  The ripple engine's mutable state and its three operations: `init`
  (allocate the maps for a surface size), `render` (one frame: step the
  height field, refract the texture into the output buffer, swap the maps)
  and `disturb` (a pointer move injecting energy).
 */
module WaterRipples {
  import opened JsNumbers
  import opened HeightField
  import opened Refraction

  /** The previous map once the frame loop has visited every sample below `n`. */
  ghost function StepPrefix(r: seq<int>, l: seq<int>, w: nat, h: nat, n: int): (s: seq<int>)
    requires |r| == |l| && w * (h + 2) <= |l|
    ensures |s| == |l|
  {
    seq(|l|, i requires 0 <= i < |l| => if w <= i < n then StepAt(r, l, w, h, i) else l[i])
  }

  lemma StepPrefixNext(r: seq<int>, l: seq<int>, w: nat, h: nat, n: int)
    requires |r| == |l| && w * (h + 2) <= |l| && w <= n < |l|
    ensures StepPrefix(r, l, w, h, n + 1) == StepPrefix(r, l, w, h, n)[n := StepAt(r, l, w, h, n)]
  {
  }

  lemma StepPrefixEnds(r: seq<int>, l: seq<int>, w: nat, h: nat)
    requires |r| == |l| && w * (h + 2) <= |l|
    ensures StepPrefix(r, l, w, h, w) == l
    ensures StepPrefix(r, l, w, h, w * (h + 1)) == StepMap(r, l, w, h)
  {
  }

  /** `s[i] := v` on a `Uint8ClampedArray`: a write past the end is dropped. */
  function Store(s: seq<byte>, i: nat, v: byte): (t: seq<byte>)
    ensures |t| == |s|
  {
    if i < |s| then s[i := v] else s
  }

  /** A store in range changes exactly byte `i`; one past the end changes nothing. */
  lemma StoreChangesOneByte(s: seq<byte>, i: nat, v: byte)
    ensures i < |s| ==> Store(s, i, v)[i] == v
    ensures forall j :: 0 <= j < |s| && j != i ==> Store(s, i, v)[j] == s[j]
    ensures |s| <= i ==> Store(s, i, v) == s
  {
  }

  /** The output buffer once the frame loop has written every byte below `k`. */
  ghost function RenderPrefix(o: seq<byte>, tex: seq<byte>, r: seq<int>, l: seq<int>,
                              w: nat, h: nat, halfW: int, halfH: int, k: int): (s: seq<byte>)
    requires |r| == |l| && w * (h + 2) <= |l|
    ensures |s| == |o|
  {
    seq(|o|, i requires 0 <= i < |o| => if i < k then RenderAt(o, tex, r, l, w, h, halfW, halfH, i) else o[i])
  }

  /** Visiting pixel `(x, y)` writes colour channel `c`, byte `k`, with the texel at its source. */
  lemma RenderPrefixChannel(o: seq<byte>, tex: seq<byte>, r: seq<int>, l: seq<int>,
                            w: nat, h: nat, halfW: int, halfH: int, x: int, y: int, c: int, k: int, next: int)
    requires |r| == |l| && w * (h + 2) <= |l|
    requires 0 <= x < w && 0 <= y < h && 0 <= c < 3
    requires k == 4 * (y * w + x) + c && next == k + 1
    ensures 0 <= k
    ensures RenderPrefix(o, tex, r, l, w, h, halfW, halfH, next) ==
      Store(RenderPrefix(o, tex, r, l, w, h, halfW, halfH, k), k,
            Texel(tex, PixelSource(r, l, w, h, halfW, halfH, x, y) + c))
  {
    PixelChannel(w, h, x, y, c);
    var before := RenderPrefix(o, tex, r, l, w, h, halfW, halfH, k);
    var after := RenderPrefix(o, tex, r, l, w, h, halfW, halfH, next);
    if k < |o| {
      var v := Texel(tex, PixelSource(r, l, w, h, halfW, halfH, x, y) + c);
      PixelSample(o, tex, r, l, w, h, halfW, halfH, x, y, c);
      forall i | 0 <= i < |o| ensures after[i] == before[k := v][i] {
        if i == k {
          assert after[i] == RenderAt(o, tex, r, l, w, h, halfW, halfH, k);
        }
      }
    } else {
      assert after == before;
    }
  }

  /** Visiting pixel `(x, y)` leaves its alpha channel alone. */
  lemma RenderPrefixAlpha(o: seq<byte>, tex: seq<byte>, r: seq<int>, l: seq<int>,
                          w: nat, h: nat, halfW: int, halfH: int, x: int, y: int, k: int, next: int)
    requires |r| == |l| && w * (h + 2) <= |l|
    requires 0 <= x < w && 0 <= y < h
    requires k == 4 * (y * w + x) + 3 && next == k + 1
    ensures RenderPrefix(o, tex, r, l, w, h, halfW, halfH, next) == RenderPrefix(o, tex, r, l, w, h, halfW, halfH, k)
  {
    PixelChannel(w, h, x, y, 3);
  }

  /** Visiting pixel `(x, y)` writes its three colour channels from `source` and leaves its alpha. */
  lemma RenderPrefixPixel(o: seq<byte>, tex: seq<byte>, r: seq<int>, l: seq<int>,
                          w: nat, h: nat, halfW: int, halfH: int, x: int, y: int, k: int, source: int)
    requires |r| == |l| && w * (h + 2) <= |l|
    requires 0 <= x < w && 0 <= y < h && k == 4 * (y * w + x)
    requires source == PixelSource(r, l, w, h, halfW, halfH, x, y)
    ensures 0 <= k
    ensures RenderPrefix(o, tex, r, l, w, h, halfW, halfH, k + 4) ==
      Store(Store(Store(RenderPrefix(o, tex, r, l, w, h, halfW, halfH, k),
                        k, Texel(tex, source)),
                  k + 1, Texel(tex, source + 1)),
            k + 2, Texel(tex, source + 2))
  {
    var p0 := RenderPrefix(o, tex, r, l, w, h, halfW, halfH, k);
    var p1 := RenderPrefix(o, tex, r, l, w, h, halfW, halfH, k + 1);
    var p2 := RenderPrefix(o, tex, r, l, w, h, halfW, halfH, k + 2);
    var p3 := RenderPrefix(o, tex, r, l, w, h, halfW, halfH, k + 3);
    RenderPrefixChannel(o, tex, r, l, w, h, halfW, halfH, x, y, 0, k, k + 1);
    assert p1 == Store(p0, k, Texel(tex, source));
    RenderPrefixChannel(o, tex, r, l, w, h, halfW, halfH, x, y, 1, k + 1, k + 2);
    assert p2 == Store(p1, k + 1, Texel(tex, source + 1));
    RenderPrefixChannel(o, tex, r, l, w, h, halfW, halfH, x, y, 2, k + 2, k + 3);
    assert p3 == Store(p2, k + 2, Texel(tex, source + 2));
    RenderPrefixAlpha(o, tex, r, l, w, h, halfW, halfH, x, y, k + 3, k + 4);
  }

  lemma RenderPrefixEnds(o: seq<byte>, tex: seq<byte>, r: seq<int>, l: seq<int>,
                         w: nat, h: nat, halfW: int, halfH: int)
    requires |r| == |l| && w * (h + 2) <= |l|
    ensures RenderPrefix(o, tex, r, l, w, h, halfW, halfH, 0) == o
    ensures RenderPrefix(o, tex, r, l, w, h, halfW, halfH, 4 * (h * w)) == RenderOut(o, tex, r, l, w, h, halfW, halfH)
  {
    assert h * w == w * h;
  }

  /**
    One frame's fused loop over the picture: for every pixel it writes the
    stepped height into `last` and the refracted colour into `out`, reading
    `ripple` only.
   */
  method StepAndRender(ripple: array<int>, last: array<int>, out: array<byte>, tex: seq<byte>,
                       w: nat, h: nat, halfW: int, halfH: int)
    requires ripple != last
    requires ripple.Length == last.Length && w * (h + 2) <= last.Length
    modifies last, out
    ensures ripple[..] == old(ripple[..])
    ensures last[..] == StepMap(ripple[..], old(last[..]), w, h)
    ensures out[..] == RenderOut(old(out[..]), tex, ripple[..], old(last[..]), w, h, halfW, halfH)
  {
    ghost var R, L, O := ripple[..], last[..], out[..];
    StepPrefixEnds(R, L, w, h);
    RenderPrefixEnds(O, tex, R, L, w, h, halfW, halfH);
    var mapIndex := w;
    var pixelIndex := 0;
    var y := 0;
    while y < h
      invariant 0 <= y <= h
      invariant mapIndex == MapIndex(w, 0, y) && pixelIndex == 4 * (y * w)
      invariant ripple[..] == R
      invariant last[..] == StepPrefix(R, L, w, h, mapIndex)
      invariant out[..] == RenderPrefix(O, tex, R, L, w, h, halfW, halfH, pixelIndex)
    {
      var x := 0;
      while x < w
        invariant 0 <= x <= w
        invariant mapIndex == MapIndex(w, x, y) && pixelIndex == 4 * (y * w + x)
        invariant ripple[..] == R
        invariant last[..] == StepPrefix(R, L, w, h, mapIndex)
        invariant out[..] == RenderPrefix(O, tex, R, L, w, h, halfW, halfH, pixelIndex)
      {
        var newHeight := StepSample(ripple, last, w, h, x, y, mapIndex, R, L);
        RefractPixel(out, tex, w, h, halfW, halfH, x, y, pixelIndex, newHeight, R, L, O);
        mapIndex := mapIndex + 1;
        pixelIndex := pixelIndex + 4;
        x := x + 1;
      }
      assert MapIndex(w, w, y) == MapIndex(w, 0, y + 1);
      assert y * w + w == (y + 1) * w;
      y := y + 1;
    }
    assert mapIndex == w * (h + 1);
  }

  /**
    First half of the frame loop's body for sample `mapIndex` of pixel
    `(x, y)`: halve the sum of the four neighbours in `ripple`, subtract the
    sample in `last`, damp, and store the int16-wrapped result into `last`.
    The unwrapped height is returned for the refraction.
   */
  method StepSample(ripple: array<int>, last: array<int>, w: nat, h: nat, x: int, y: int,
                    mapIndex: int, ghost R: seq<int>, ghost L: seq<int>) returns (newHeight: int)
    requires ripple != last
    requires ripple.Length == last.Length == |L| && w * (h + 2) <= |L|
    requires 0 <= x < w && 0 <= y < h && mapIndex == MapIndex(w, x, y)
    requires ripple[..] == R
    requires last[..] == StepPrefix(R, L, w, h, mapIndex)
    modifies last
    ensures 0 < w <= mapIndex && mapIndex + w < |R|
    ensures newHeight == NewHeight(R, L, w, mapIndex)
    ensures last[..] == StepPrefix(R, L, w, h, mapIndex + 1)
  {
    NeighboursInBounds(w, h, x, y);
    StepPrefixNext(R, L, w, h, mapIndex);
    var data := Sar(ripple[mapIndex - w] + ripple[mapIndex + w] + ripple[mapIndex - 1] + ripple[mapIndex + 1], 1);
    assert last[mapIndex] == L[mapIndex];
    newHeight := data - last[mapIndex];
    newHeight := newHeight - Sar(newHeight, 5);
    assert newHeight == NewHeight(R, L, w, mapIndex);
    assert StepAt(R, L, w, h, mapIndex) == Int16(newHeight);
    last[mapIndex] := Int16(newHeight);
  }

  /**
    The refraction of pixel `(x, y)` at unwrapped height `newHeight`: its
    offsets `((x - halfW) * newHeight / 1024) << 0` and the same for `y`,
    and, for a non-zero height, the displaced position clamped into the
    picture. Returns the byte index of channel 0 of the texel to copy.
   */
  method RefractedSource(w: nat, h: nat, halfW: int, halfH: int, x: int, y: int,
                         pixelIndex: int, newHeight: int) returns (source: int)
    requires 0 <= x < w && 0 <= y < h && pixelIndex == 4 * (y * w + x)
    ensures newHeight == 0 ==> source == pixelIndex
    ensures newHeight != 0 ==> source == SampleIndex(w, h, halfW, halfH, x, y, newHeight)
    ensures 0 <= source && source + 3 < 4 * (w * h)
  {
    var xOffset := Int32(TruncDiv((x - halfW) * newHeight, Strength));
    var yOffset := Int32(TruncDiv((y - halfH) * newHeight, Strength));
    source := pixelIndex;
    if newHeight != 0 {
      var newX := x + xOffset;
      var newY := y + yOffset;
      if newX >= w { newX := w - 1; }
      if newX < 0 { newX := 0; }
      if newY >= h { newY := h - 1; }
      if newY < 0 { newY := 0; }
      source := (newY * w + newX) * 4;
      SampleInBounds(w, h, halfW, halfH, x, y, newHeight, 3);
      assert w * h * 4 == 4 * (w * h);
    } else {
      PixelChannel(w, h, x, y, 3);
    }
  }

  /**
    Second half of the frame loop's body: from the unwrapped new height of
    pixel `(x, y)`, compute the refraction offsets, clamp the displaced
    position to the picture, and copy that texel's three colour channels
    into `out` at `pixelIndex`; with a zero height, copy the texel at
    `pixelIndex` itself.
   */
  method RefractPixel(out: array<byte>, tex: seq<byte>, w: nat, h: nat, halfW: int, halfH: int,
                      x: int, y: int, pixelIndex: int, newHeight: int,
                      ghost R: seq<int>, ghost L: seq<int>, ghost O: seq<byte>)
    requires |R| == |L| && w * (h + 2) <= |L|
    requires 0 <= x < w && 0 <= y < h && pixelIndex == 4 * (y * w + x)
    requires 0 < w <= MapIndex(w, x, y) && MapIndex(w, x, y) + w < |R|
    requires newHeight == NewHeight(R, L, w, MapIndex(w, x, y))
    requires out[..] == RenderPrefix(O, tex, R, L, w, h, halfW, halfH, pixelIndex)
    modifies out
    ensures out[..] == RenderPrefix(O, tex, R, L, w, h, halfW, halfH, pixelIndex + 4)
  {
    var source := RefractedSource(w, h, halfW, halfH, x, y, pixelIndex, newHeight);
    assert source == PixelSource(R, L, w, h, halfW, halfH, x, y);
    RenderPrefixPixel(O, tex, R, L, w, h, halfW, halfH, x, y, pixelIndex, source);
    StoreByte(out, pixelIndex, Texel(tex, source));
    StoreByte(out, pixelIndex + 1, Texel(tex, source + 1));
    StoreByte(out, pixelIndex + 2, Texel(tex, source + 2));
  }

  /** `out[i] = v` on a `Uint8ClampedArray`: a write past the end is dropped. */
  method StoreByte(out: array<byte>, i: nat, v: byte)
    modifies out
    ensures out[..] == Store(old(out[..]), i, v)
  {
    if i < out.Length {
      out[i] := v;
    }
  }

  /** Sample `i` was raised by the part of `disturb` that ran before cell `(k, j)`. */
  ghost predicate BrushedBefore(w: nat, h: nat, dx: int, dy: int, i: int, j: int, k: int) {
    Brushed(w, h, dx, dy, i) && (i / w < j || (i / w == j && i % w < k))
  }

  /** The current map once `disturb` has visited every cell before `(k, j)`. */
  ghost function DisturbPrefix(r: seq<int>, w: nat, h: nat, dx: int, dy: int, j: int, k: int): (s: seq<int>)
    ensures |s| == |r|
  {
    seq(|r|, i requires 0 <= i < |r| =>
      if BrushedBefore(w, h, dx, dy, i, j, k) then Int16(r[i] + BrushEnergy) else r[i])
  }

  /** Visiting cell `(k, j)` raises sample `w * j + k` if the cell is in the grid, and nothing otherwise. */
  lemma DisturbPrefixNext(r: seq<int>, w: nat, h: nat, dx: int, dy: int, j: int, k: int)
    requires w * h <= |r|
    requires dy - BrushRadius <= j < dy + BrushRadius && dx - BrushRadius <= k < dx + BrushRadius
    ensures 0 <= j < h && 0 <= k < w ==>
      0 <= DisturbIndex(w, j, k) < |r| &&
      DisturbPrefix(r, w, h, dx, dy, j, k)[DisturbIndex(w, j, k)] == r[DisturbIndex(w, j, k)] &&
      DisturbPrefix(r, w, h, dx, dy, j, k + 1) ==
        DisturbPrefix(r, w, h, dx, dy, j, k)[DisturbIndex(w, j, k) := Int16(r[DisturbIndex(w, j, k)] + BrushEnergy)]
    ensures !(0 <= j < h && 0 <= k < w) ==>
      DisturbPrefix(r, w, h, dx, dy, j, k + 1) == DisturbPrefix(r, w, h, dx, dy, j, k)
  {
    if 0 <= j < h && 0 <= k < w {
      RowColumn(w, j, k);
      DisturbRaisesSquare(r, w, h, dx, dy, j, k);
    }
  }

  lemma DisturbPrefixEnds(r: seq<int>, w: nat, h: nat, dx: int, dy: int)
    ensures DisturbPrefix(r, w, h, dx, dy, dy - BrushRadius, dx - BrushRadius) == r
    ensures DisturbPrefix(r, w, h, dx, dy, dy + BrushRadius, dx - BrushRadius) == DisturbMap(r, w, h, dx, dy)
  {
  }

  lemma DisturbPrefixRow(r: seq<int>, w: nat, h: nat, dx: int, dy: int, j: int)
    ensures DisturbPrefix(r, w, h, dx, dy, j, dx + BrushRadius) == DisturbPrefix(r, w, h, dx, dy, j + 1, dx - BrushRadius)
  {
  }

  class Ripples {
    var width: nat
    var height: nat
    var halfWidth: int
    var halfHeight: int
    var size: nat
    /** The current height map, read by a frame and raised by `Disturb`. */
    var rippleMap: array<int>
    /** The previous height map, overwritten by a frame with the next one. */
    var lastMap: array<int>
    /** Whether the texture and the output buffer have been captured. */
    var captured: bool
    var texture: seq<byte>
    var output: array<byte>

    ghost predicate Valid()
      reads this, rippleMap, lastMap
    {
      rippleMap != lastMap &&
      size == MapLength(width, height) &&
      rippleMap.Length == size && lastMap.Length == size &&
      AllInt16(rippleMap[..]) && AllInt16(lastMap[..])
    }

    /** The state at mount, before `init` has measured the container. */
    constructor ()
      ensures Valid()
      ensures width == 0 && height == 0 && halfWidth == 0 && halfHeight == 0 && size == 0
      ensures !captured && texture == [] && output.Length == 0
    {
      width, height, halfWidth, halfHeight, size := 0, 0, 0, 0, 0;
      rippleMap := new int[0];
      lastMap := new int[0];
      captured := false;
      texture := [];
      output := new byte[0];
    }

    /**
      `init`: take the container's size, halve it with `>> 1`, and allocate
      two fresh all-zero maps of `w * (h + 2) * 2` samples, discarding any
      wave state. A texture captured earlier stays until it is captured again.
     */
    method Init(w: nat, h: nat)
      modifies this
      ensures Valid()
      ensures width == w && height == h
      ensures halfWidth == Sar(w, 1) && halfHeight == Sar(h, 1)
      ensures w < TwoTo31 ==> halfWidth == w / 2
      ensures h < TwoTo31 ==> halfHeight == h / 2
      ensures size == MapLength(w, h)
      ensures fresh(rippleMap) && fresh(lastMap)
      ensures AllZero(rippleMap[..]) && AllZero(lastMap[..])
      ensures captured == old(captured) && texture == old(texture) && output == old(output)
    {
      width := w;
      height := h;
      halfWidth := Sar(w, 1);
      halfHeight := Sar(h, 1);
      size := MapLength(w, h);
      rippleMap := new int[size](_ => 0);
      lastMap := new int[size](_ => 0);
      if w < TwoTo31 { SarIsFloorDivision(w, 1); }
      if h < TwoTo31 { SarIsFloorDivision(h, 1); }
    }

    /**
      The image's `onload`: the same canvas snapshot becomes the texture and
      the initial content of the output buffer.
     */
    method Capture(snapshot: seq<byte>)
      requires Valid()
      modifies this
      ensures Valid()
      ensures captured && texture == snapshot
      ensures fresh(output) && output[..] == snapshot
      ensures width == old(width) && height == old(height)
      ensures halfWidth == old(halfWidth) && halfHeight == old(halfHeight) && size == old(size)
      ensures rippleMap == old(rippleMap) && lastMap == old(lastMap)
    {
      captured := true;
      texture := snapshot;
      output := new byte[|snapshot|](i requires 0 <= i < |snapshot| => snapshot[i]);
    }

    /**
      `render`: until the texture is captured a frame does nothing. Otherwise
      the previous map receives the next heights, the output buffer the
      refracted picture, and the two maps change roles.
     */
    method Frame()
      requires Valid()
      modifies this, lastMap, output
      ensures Valid()
      ensures width == old(width) && height == old(height)
      ensures halfWidth == old(halfWidth) && halfHeight == old(halfHeight) && size == old(size)
      ensures captured == old(captured) && texture == old(texture) && output == old(output)
      ensures !old(captured) ==>
        rippleMap == old(rippleMap) && lastMap == old(lastMap) &&
        unchanged(rippleMap) && unchanged(lastMap) && unchanged(output)
      ensures old(captured) ==>
        rippleMap == old(lastMap) && lastMap == old(rippleMap) &&
        lastMap[..] == old(rippleMap[..]) &&
        rippleMap[..] == StepMap(old(rippleMap[..]), old(lastMap[..]), width, height) &&
        output[..] == RenderOut(old(output[..]), texture, old(rippleMap[..]), old(lastMap[..]),
                                width, height, halfWidth, halfHeight)
    {
      if !captured {
        return;
      }
      MapsHoldPaddedGrid();
      StepAndRender(rippleMap, lastMap, output, texture, width, height, halfWidth, halfHeight);
      StepKeepsInt16(rippleMap[..], old(lastMap[..]), width, height);
      rippleMap, lastMap := lastMap, rippleMap;
    }

    /**
      `disturb(dx, dy)`: add 600 to the current map at `width * j + k` for
      every `j` in `[dy - 6, dy + 6)` and `k` in `[dx - 6, dx + 6)` inside the
      grid. The previous map is untouched.
     */
    method Disturb(dx: int, dy: int)
      requires Valid()
      modifies rippleMap
      ensures Valid()
      ensures rippleMap[..] == DisturbMap(old(rippleMap[..]), width, height, dx, dy)
      ensures lastMap[..] == old(lastMap[..])
    {
      ghost var R := rippleMap[..];
      var w := width;
      DisturbPrefixEnds(R, w, height, dx, dy);
      assert w * height <= |R| by { assert w * (height + 2) * 2 - w * height == w * (height + 4); }
      var j := dy - BrushRadius;
      while j < dy + BrushRadius
        invariant dy - BrushRadius <= j <= dy + BrushRadius
        invariant rippleMap[..] == DisturbPrefix(R, w, height, dx, dy, j, dx - BrushRadius)
      {
        var k := dx - BrushRadius;
        while k < dx + BrushRadius
          invariant dx - BrushRadius <= k <= dx + BrushRadius
          invariant rippleMap[..] == DisturbPrefix(R, w, height, dx, dy, j, k)
        {
          DisturbPrefixNext(R, w, height, dx, dy, j, k);
          if j >= 0 && j < height && k >= 0 && k < w {
            rippleMap[w * j + k] := Int16(rippleMap[w * j + k] + BrushEnergy);
          }
          k := k + 1;
        }
        DisturbPrefixRow(R, w, height, dx, dy, j);
        j := j + 1;
      }
    }

    /** The first `width * (height + 2)` samples of each map, the ones a frame reads, exist. */
    lemma MapsHoldPaddedGrid()
      requires Valid()
      ensures width * (height + 2) <= size
    {
    }
  }

  /**
    Mounting over a still surface: `init`, the image's `onload` and one
    `render` show the captured picture exactly, alpha included.
   */
  method StillSurfaceShowsImage(w: nat, h: nat, snapshot: seq<byte>) returns (shown: seq<byte>)
    requires |snapshot| == 4 * (w * h)
    ensures shown == snapshot
  {
    var ripples := new Ripples();
    ripples.Init(w, h);
    ripples.Capture(snapshot);
    ghost var R, L := ripples.rippleMap[..], ripples.lastMap[..];
    ripples.Frame();
    RestFrameShowsTexture(snapshot, snapshot, R, L, w, h, ripples.halfWidth, ripples.halfHeight);
    shown := ripples.output[..];
  }
}
