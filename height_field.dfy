/**
  The two wave height maps of the ripple engine, as values.

  A map is a flat row-major sequence of `width * (height + 2) * 2` samples.
  The pixel `(x, y)` of the `width` by `height` surface is the sample at
  `MapIndex(width, x, y) == width * (y + 1) + x`: row 0 of the map is a
  padding row above the picture, and only the first `width * (height + 2)`
  samples are ever read.
 */
module HeightField {
  import opened JsNumbers
  import Arith

  /** Side of the square a pointer move disturbs is twice this. */
  const BrushRadius: int := 6
  /** Height added to every disturbed sample. */
  const BrushEnergy: int := 600

  /** Number of samples allocated for each of the two maps. */
  function MapLength(w: nat, h: nat): nat {
    w * (h + 2) * 2
  }

  /** The sample the frame loop visits for pixel `(x, y)`. */
  function MapIndex(w: nat, x: int, y: int): int {
    w * (y + 1) + x
  }

  /** The sample `disturb` changes for grid cell `(k, j)`. */
  function DisturbIndex(w: nat, j: int, k: int): int {
    w * j + k
  }

  predicate AllInt16(s: seq<int>) {
    forall i :: 0 <= i < |s| ==> IsInt16(s[i])
  }

  predicate AllZero(s: seq<int>) {
    forall i :: 0 <= i < |s| ==> s[i] == 0
  }

  /**
    Pixel `(x, y)` sits in the rows of the map the frame loop walks, and its
    four neighbours and its own sample lie inside the first
    `w * (h + 2)` samples, so every read of a step is in bounds.
   */
  lemma NeighboursInBounds(w: nat, h: nat, x: int, y: int)
    requires 0 <= x < w && 0 <= y < h
    ensures var m := MapIndex(w, x, y);
      w <= m < w * (h + 1) &&
      0 <= m - w && m + w < w * (h + 2) &&
      0 <= m - 1 && m + 1 < w * (h + 2) &&
      w * (h + 2) <= MapLength(w, h)
  {
    Arith.MulMonotone(y + 2, h + 1, w);
    assert w * (y + 2) == w * (y + 1) + w;
    assert w * (h + 2) == w * (h + 1) + w;
    assert MapLength(w, h) == w * (h + 2) + w * (h + 2);
  }

  /**
    At column 0 the left neighbour `m - 1` is the last sample of the row
    above: the last pixel of the previous picture row, or, on the first
    picture row, the top padding row. There is no column padding.
   */
  lemma LeftNeighbourOfColumnZero(w: nat, y: nat)
    requires w > 0
    ensures y > 0 ==> MapIndex(w, 0, y) - 1 == MapIndex(w, w - 1, y - 1)
    ensures y == 0 ==> MapIndex(w, 0, y) - 1 == w - 1
  {
  }

  /**
    The damping `v - (v >> 5)` moves an int32 height toward zero and never
    past it: the damped value keeps the sign of `v` and is no larger in size.
   */
  lemma DampingShrinks(v: int)
    requires IsInt32(v)
    ensures 0 <= v ==> 0 <= v - Sar(v, 5) <= v
    ensures v < 0 ==> v <= v - Sar(v, 5) <= 0
  {
    assert Pow2(5) == 32;
    var s := Sar(v, 5);
    assert s * 32 <= v < s * 32 + 32;
  }

  /**
    The unwrapped new height of sample `m`: half the sum of the four
    neighbours in the current map `r`, minus the sample's value in the
    previous map `l`, then damped by `v >> 5`. Five zero samples give
    height 0.
   */
  function NewHeight(r: seq<int>, l: seq<int>, w: nat, m: int): (hgt: int)
    requires 0 < w <= m && m + w < |r| && m < |l|
    ensures r[m - w] == r[m + w] == r[m - 1] == r[m + 1] == l[m] == 0 ==> hgt == 0
  {
    var data := Sar(r[m - w] + r[m + w] + r[m - 1] + r[m + 1], 1);
    var v := data - l[m];
    v - Sar(v, 5)
  }

  /**
    On int16 maps the unwrapped new height lies in `[-98303, 98302]`: the
    halved neighbour sum is in `[-65536, 65534]`, the previous sample is
    int16, and the damping only moves the difference toward zero.
   */
  lemma NewHeightInRange(r: seq<int>, l: seq<int>, w: nat, m: int)
    requires 0 < w <= m && m + w < |r| && m < |l|
    requires IsInt16(r[m - w]) && IsInt16(r[m + w]) && IsInt16(r[m - 1]) && IsInt16(r[m + 1]) && IsInt16(l[m])
    ensures -98303 <= NewHeight(r, l, w, m) <= 98302
  {
    var data := Sar(r[m - w] + r[m + w] + r[m - 1] + r[m + 1], 1);
    assert Pow2(1) == 2;
    assert -65536 <= data <= 65534;
    DampingShrinks(data - l[m]);
  }

  /**
    On maps of int16 samples the two shifts are floor divisions:
    the new height is `v - floor(v / 32)` with
    `v = floor(sum of the four neighbours / 2) - l[m]`.
   */
  lemma NewHeightIsFloorDamping(r: seq<int>, l: seq<int>, w: nat, m: int)
    requires 0 < w <= m && m + w < |r| && m < |l|
    requires AllInt16(r) && AllInt16(l)
    ensures var v := (r[m - w] + r[m + w] + r[m - 1] + r[m + 1]) / 2 - l[m];
      NewHeight(r, l, w, m) == v - v / 32
  {
    var sum := r[m - w] + r[m + w] + r[m - 1] + r[m + 1];
    SarIsFloorDivision(sum, 1);
    var v := Sar(sum, 1) - l[m];
    SarIsFloorDivision(v, 5);
  }

  /** One sample of the previous map after the step has visited it. */
  function StepAt(r: seq<int>, l: seq<int>, w: nat, h: nat, i: int): int
    requires |r| == |l| && w * (h + 2) <= |l| && 0 <= i < |l|
  {
    if w <= i < w * (h + 1) then
      assert i + w < w * (h + 2) by { assert w * (h + 1) + w == w * (h + 2); }
      Int16(NewHeight(r, l, w, i))
    else
      l[i]
  }

  /** The previous map `l` after one step against the current map `r`. */
  function StepMap(r: seq<int>, l: seq<int>, w: nat, h: nat): (s: seq<int>)
    requires |r| == |l| && w * (h + 2) <= |l|
    ensures |s| == |l|
  {
    seq(|l|, i requires 0 <= i < |l| => StepAt(r, l, w, h, i))
  }

  /**
    The sample of pixel `(x, y)` becomes the int16-wrapped damped height
    `v - floor(v / 32)`, `v = floor(neighbour sum / 2) - l[m]`.
   */
  lemma StepCell(r: seq<int>, l: seq<int>, w: nat, h: nat, x: int, y: int)
    requires |r| == |l| && MapLength(w, h) <= |l|
    requires AllInt16(r) && AllInt16(l)
    requires 0 <= x < w && 0 <= y < h
    ensures var m := MapIndex(w, x, y);
      var v := (r[m - w] + r[m + w] + r[m - 1] + r[m + 1]) / 2 - l[m];
      0 <= m - w && m + w < |l| &&
      StepMap(r, l, w, h)[m] == Int16(v - v / 32)
  {
    NeighboursInBounds(w, h, x, y);
    NewHeightIsFloorDamping(r, l, w, MapIndex(w, x, y));
  }

  /**
    A step changes only the samples `[w, w * (h + 1))`, the rows of the
    picture, and leaves both padding rows and the unused second half alone.
   */
  lemma StepKeepsPadding(r: seq<int>, l: seq<int>, w: nat, h: nat, i: int)
    requires |r| == |l| && w * (h + 2) <= |l| && 0 <= i < |l|
    requires i < w || w * (h + 1) <= i
    ensures StepMap(r, l, w, h)[i] == l[i]
  {
  }

  /** A step stores only int16 values. */
  lemma StepKeepsInt16(r: seq<int>, l: seq<int>, w: nat, h: nat)
    requires |r| == |l| && w * (h + 2) <= |l| && AllInt16(l)
    ensures AllInt16(StepMap(r, l, w, h))
  {
  }

  /** Rest state: two flat maps step to a flat map. */
  lemma RestStepIsFlat(r: seq<int>, l: seq<int>, w: nat, h: nat)
    requires |r| == |l| && w * (h + 2) <= |l|
    requires AllZero(r) && AllZero(l)
    ensures AllZero(StepMap(r, l, w, h))
  {
    forall i | 0 <= i < |l| ensures StepMap(r, l, w, h)[i] == 0 {
      if w <= i < w * (h + 1) {
        assert i + w < w * (h + 2) by { assert w * (h + 1) + w == w * (h + 2); }
        assert NewHeight(r, l, w, i) == 0;
      }
    }
  }

  /** Sample `i` is one of the cells `disturb(dx, dy)` raises. */
  predicate Brushed(w: nat, h: nat, dx: int, dy: int, i: int) {
    0 < w && 0 <= i &&
    i / w < h && dy - BrushRadius <= i / w < dy + BrushRadius &&
    dx - BrushRadius <= i % w < dx + BrushRadius
  }

  function DisturbAt(r: seq<int>, w: nat, h: nat, dx: int, dy: int, i: int): int
    requires 0 <= i < |r|
  {
    if Brushed(w, h, dx, dy, i) then Int16(r[i] + BrushEnergy) else r[i]
  }

  /** The current map after `disturb(dx, dy)`. */
  function DisturbMap(r: seq<int>, w: nat, h: nat, dx: int, dy: int): (s: seq<int>)
    ensures |s| == |r|
  {
    seq(|r|, i requires 0 <= i < |r| => DisturbAt(r, w, h, dx, dy, i))
  }

  /** Row `j` and column `k` are recovered from `w * j + k` when `0 <= k < w`. */
  lemma RowColumn(w: nat, j: int, k: int)
    requires 0 <= k < w
    ensures DisturbIndex(w, j, k) / w == j && DisturbIndex(w, j, k) % w == k
  {
    FloorDivisionUnique(w * j + k, w, j);
  }

  /**
    Every in-grid cell `(k, j)` of the 12 by 12 square
    `[dx - 6, dx + 6) x [dy - 6, dy + 6)` gains 600, wrapped to int16.
   */
  lemma DisturbRaisesSquare(r: seq<int>, w: nat, h: nat, dx: int, dy: int, j: int, k: int)
    requires w * h <= |r|
    requires 0 <= j < h && dy - BrushRadius <= j < dy + BrushRadius
    requires 0 <= k < w && dx - BrushRadius <= k < dx + BrushRadius
    ensures 0 <= DisturbIndex(w, j, k) < |r|
    ensures DisturbMap(r, w, h, dx, dy)[DisturbIndex(w, j, k)] == Int16(r[DisturbIndex(w, j, k)] + BrushEnergy)
  {
    RowColumn(w, j, k);
    Arith.MulMonotone(0, j, w);
    Arith.MulMonotone(j + 1, h, w);
    assert (j + 1) * w == j * w + w;
  }

  /** Adding the brush energy always changes an int16 sample: 600 is not a multiple of 2^16. */
  lemma EnergyChangesSample(v: int)
    ensures Int16(v + BrushEnergy) != v
  {
    var s := Int16(v + BrushEnergy);
    assert (v + BrushEnergy - s) % TwoTo16 == 0;
  }

  /**
    `disturb(dx, dy)` changes sample `i` exactly when `i` is `w * j + k` for an
    in-grid cell `(k, j)` of the square.
   */
  lemma DisturbChangesExactlySquare(r: seq<int>, w: nat, h: nat, dx: int, dy: int, i: int)
    requires w * h <= |r| && 0 <= i < |r|
    ensures DisturbMap(r, w, h, dx, dy)[i] != r[i] <==>
      exists j, k :: 0 <= j < h && dy - BrushRadius <= j < dy + BrushRadius &&
        0 <= k < w && dx - BrushRadius <= k < dx + BrushRadius &&
        i == DisturbIndex(w, j, k)
  {
    if Brushed(w, h, dx, dy, i) {
      var j, k := i / w, i % w;
      assert i == DisturbIndex(w, j, k);
      assert 0 <= j < h && dy - BrushRadius <= j < dy + BrushRadius;
      assert 0 <= k < w && dx - BrushRadius <= k < dx + BrushRadius;
      assert DisturbMap(r, w, h, dx, dy)[i] == Int16(r[i] + BrushEnergy);
      EnergyChangesSample(r[i]);
    } else {
      assert DisturbMap(r, w, h, dx, dy)[i] == r[i];
      forall j, k | 0 <= j < h && 0 <= k < w && i == DisturbIndex(w, j, k)
        ensures !(dy - BrushRadius <= j < dy + BrushRadius && dx - BrushRadius <= k < dx + BrushRadius)
      {
        RowColumn(w, j, k);
      }
    }
  }

  /** A point whose square misses the grid changes nothing. */
  lemma DisturbOffGrid(r: seq<int>, w: nat, h: nat, dx: int, dy: int)
    requires dy + BrushRadius <= 0 || h <= dy - BrushRadius || dx + BrushRadius <= 0 || w <= dx - BrushRadius
    ensures DisturbMap(r, w, h, dx, dy) == r
  {
  }

  /**
    The disturbance lands one row higher than the pixel it is aimed at:
    cell `(k, j)` is the sample the frame loop treats as pixel `(k, j - 1)`,
    and row `j = 0` falls into the top padding row, which no step writes.
   */
  lemma DisturbRowOffset(w: nat, h: nat, j: int, k: int)
    requires 0 <= k < w && 0 <= j
    ensures DisturbIndex(w, j, k) == MapIndex(w, k, j - 1)
    ensures j == 0 ==> DisturbIndex(w, j, k) < w
  {
  }
}
