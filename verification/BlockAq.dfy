/** The loops of block-level adaptive quantisation: tile variances, the in-place median, and one plane's deltas. */
module BlockAq {
  import opened Wrappers
  import opened Bytes
  import opened BlockAqSpec

  datatype AqError = DeltaOutOfRange | InvalidClipRange

  datatype Plane = Plane(width: u32, height: u32, stride: nat, samples: seq<byte>) {
    predicate Valid() {
      width <= stride && |samples| == Rows(stride, height)
    }
  }

  function Rows(stride: nat, height: nat): nat {
    stride * height
  }

  function SampleIndex(stride: nat, x: nat, y: nat): nat {
    y * stride + x
  }

  lemma IndexInPlane(plane: Plane, x: nat, y: nat)
    requires plane.Valid() && x < plane.width && y < plane.height
    ensures SampleIndex(plane.stride, x, y) < |plane.samples|
  {
    assert y * plane.stride + plane.stride == (y + 1) * plane.stride <= plane.height * plane.stride;
  }

  predicate InTile(tileX: nat, tileY: nat, x: nat, y: nat) {
    tileX * 8 <= x < tileX * 8 + 8 && tileY * 8 <= y < tileY * 8 + 8
  }

  /** Every sample of the tile that lies inside `pw` columns and `ph` rows is there to be read. */
  ghost predicate Readable(plane: Plane, tileX: nat, tileY: nat, pw: nat, ph: nat) {
    forall x: nat, y: nat :: InTile(tileX, tileY, x, y) && x < pw && y < ph ==>
      SampleIndex(plane.stride, x, y) < |plane.samples|
  }

  lemma PlaneReadable(plane: Plane, tileX: nat, tileY: nat)
    requires plane.Valid()
    ensures Readable(plane, tileX, tileY, plane.width, plane.height)
  {
    hide SampleIndex, Rows, InTile;
    forall x: nat, y: nat | x < plane.width && y < plane.height
      ensures SampleIndex(plane.stride, x, y) < |plane.samples|
    {
      IndexInPlane(plane, x, y);
    }
  }

  /** The sample at `(x, y)`, or 128 outside `pw` columns and `ph` rows. */
  function SampleAt(plane: Plane, x: nat, y: nat, pw: nat, ph: nat): byte
    requires x < pw && y < ph ==> SampleIndex(plane.stride, x, y) < |plane.samples|
  {
    if x < pw && y < ph then plane.samples[SampleIndex(plane.stride, x, y)] else 128
  }

  /** The 64 samples of a tile, row by row. */
  ghost function Tile(plane: Plane, tileX: nat, tileY: nat, pw: nat, ph: nat): (s: seq<byte>)
    requires Readable(plane, tileX, tileY, pw, ph)
    ensures |s| == 64
  {
    seq<byte>(64, k requires 0 <= k < 64 =>
      assert InTile(tileX, tileY, tileX * 8 + k % 8, tileY * 8 + k / 8);
      SampleAt(plane, tileX * 8 + k % 8, tileY * 8 + k / 8, pw, ph))
  }

  /** A tile of the plane itself, padded where it reaches over the edges. */
  ghost function PlaneTile(plane: Plane, tileX: nat, tileY: nat): (s: seq<byte>)
    requires plane.Valid()
    ensures |s| == 64
  {
    PlaneReadable(plane, tileX, tileY);
    Tile(plane, tileX, tileY, plane.width, plane.height)
  }

  /** Adding the sample in row `r`, column `c` of the tile to the running sums. */
  lemma TileStep(plane: Plane, tileX: nat, tileY: nat, pw: nat, ph: nat, r: nat, c: nat)
    requires Readable(plane, tileX, tileY, pw, ph) && r < 8 && c < 8
    ensures InTile(tileX, tileY, tileX * 8 + c, tileY * 8 + r)
    ensures var tile, k := Tile(plane, tileX, tileY, pw, ph), 8 * r + c;
      var v := SampleAt(plane, tileX * 8 + c, tileY * 8 + r, pw, ph);
      && Sum(tile[..k + 1]) == Sum(tile[..k]) + v
      && SumSq(tile[..k + 1]) == SumSq(tile[..k]) + Square(v)
  {
    var tile, k := Tile(plane, tileX, tileY, pw, ph), 8 * r + c;
    assert k % 8 == c && k / 8 == r;
    assert tile[k] == SampleAt(plane, tileX * 8 + c, tileY * 8 + r, pw, ph);
    assert tile[..k + 1][..k] == tile[..k];
  }

  lemma TileBounds(tile: seq<byte>)
    requires |tile| == 64
    ensures Sum(tile[..0]) == 0 && SumSq(tile[..0]) == 0 && tile[..64] == tile
  {
  }

  /** `v.min(u32::MAX)` */
  function SaturateU32(v: u64): u32 {
    if v < U32_LIMIT then v else U32_LIMIT - 1
  }

  /** `compute_block_variance_8x8` */
  method ComputeBlockVariance(plane: Plane, tileX: nat, tileY: nat, pw: nat, ph: nat) returns (variance: u32)
    requires Readable(plane, tileX, tileY, pw, ph)
    ensures variance == RawVariance(Tile(plane, tileX, tileY, pw, ph))
  {
    ghost var tile := Tile(plane, tileX, tileY, pw, ph);
    var sum: nat, sumsq: nat := 0, 0;
    TileBounds(tile);
    hide Sum, SumSq, Tile, SampleAt, Square, InTile, SampleIndex;
    for r := 0 to 8
      invariant sum == Sum(tile[..8 * r]) && sumsq == SumSq(tile[..8 * r])
    {
      for c := 0 to 8
        invariant sum == Sum(tile[..8 * r + c]) && sumsq == SumSq(tile[..8 * r + c])
      {
        TileStep(plane, tileX, tileY, pw, ph, r, c);
        var v := SampleAt(plane, tileX * 8 + c, tileY * 8 + r, pw, ph);
        sum := sum + v;
        sumsq := sumsq + Square(v);
      }
    }
    VarianceNeverUnderflows(tile);
    var mean: u64 := sum / 64;
    var difference: u64 := sumsq / 64 - mean as int * mean;
    variance := SaturateU32(difference);
  }

  // ---------------------------------------------------------------- median

  lemma InsertStep(s: seq<nat>, x: nat, j: nat)
    requires j <= |s|
    ensures j > 0 && s[j - 1] > x ==> Insert(s[..j], x) == Insert(s[..j - 1], x) + [s[j - 1]]
    ensures j == 0 || s[j - 1] <= x ==> Insert(s[..j], x) == s[..j] + [x]
  {
    if j > 0 {
      assert s[..j][..j - 1] == s[..j - 1];
    }
  }

  /** The values behind `j` up to `i` stand one place further than `before`, the others where they were. */
  predicate Shifted(now: seq<nat>, before: seq<nat>, i: nat, j: nat) {
    && |now| == |before| && j <= i < |before|
    && now[..j] == before[..j]
    && now[j + 1..i + 1] == before[j..i]
    && now[i + 1..] == before[i + 1..]
  }

  lemma ShiftOne(now: seq<nat>, before: seq<nat>, i: nat, j: nat)
    requires Shifted(now, before, i, j) && j > 0
    ensures now[j - 1] == before[j - 1]
    ensures Shifted(now[j := now[j - 1]], before, i, j - 1)
  {
    var next := now[j := now[j - 1]];
    assert next[j..i + 1] == [now[j - 1]] + now[j + 1..i + 1];
    assert before[j - 1..i] == [before[j - 1]] + before[j..i];
  }

  lemma FillGap(now: seq<nat>, before: seq<nat>, i: nat, j: nat, x: nat)
    requires Shifted(now, before, i, j)
    ensures now[j := x][..i + 1] == before[..j] + [x] + before[j..i]
    ensures now[j := x][i + 1..] == before[i + 1..]
  {
    assert now[j := x][..i + 1] == now[..j] + [x] + now[j + 1..i + 1];
  }

  lemma Regroup(t: seq<nat>, s: seq<nat>, j: nat)
    requires 0 < j <= |s|
    ensures t + [s[j - 1]] + s[j..] == t + s[j - 1..]
  {
  }

  /** One insertion: the sorted prefix `a[..i]` takes in `a[i]`. */
  method InsertInPlace(a: array<nat>, i: nat)
    requires i < a.Length
    modifies a
    ensures a[..i + 1] == Insert(old(a[..i]), old(a[i]))
    ensures a[i + 1..] == old(a[i + 1..])
  {
    ghost var before, s := a[..], a[..i];
    var x := a[i];
    var j := i;
    assert s[..i] == s && s[i..] == [];
    assert Shifted(a[..], before, i, i);
    hide Insert, Shifted;
    while j > 0 && a[j - 1] > x
      invariant j <= i
      invariant Shifted(a[..], before, i, j)
      invariant Insert(s, x) == Insert(s[..j], x) + s[j..]
    {
      ShiftOne(a[..], before, i, j);
      InsertStep(s, x, j);
      Regroup(Insert(s[..j - 1], x), s, j);
      ghost var now := a[..];
      a[j] := a[j - 1];
      assert a[..] == now[j := now[j - 1]];
      j := j - 1;
    }
    if j > 0 {
      ShiftOne(a[..], before, i, j);
    }
    InsertStep(s, x, j);
    FillGap(a[..], before, i, j, x);
    ghost var now := a[..];
    a[j] := x;
    assert a[..] == now[j := x];
    assert s[..j] == before[..j] && s[j..] == before[j..i];
    assert a[..][..i + 1] == a[..i + 1] && a[..][i + 1..] == a[i + 1..];
  }

  lemma SortStep(s: seq<nat>, i: nat)
    requires i < |s|
    ensures Sort(s[..0]) == [] && Sort(s[..i + 1]) == Insert(Sort(s[..i]), s[i])
    ensures s[..|s|] == s
  {
    assert s[..i + 1][..i] == s[..i];
  }

  /** The sort that the median relies on. */
  method SortInPlace(a: array<nat>)
    modifies a
    ensures a[..] == Sort(old(a[..]))
  {
    ghost var s := a[..];
    assert s != [] || Sort(s) == [];
    hide Sort, Insert;
    for i := 0 to a.Length
      invariant i > 0 ==> a[..i] == Sort(s[..i])
      invariant a[i..] == s[i..]
    {
      SortStep(s, i);
      assert a[i] == a[i..][0] == s[i];
      assert a[..0] == [];
      InsertInPlace(a, i);
      assert s[i..][1..] == s[i + 1..];
    }
    assert s[..a.Length] == s && a[..a.Length] == a[..];
  }

  /** Sort in place and take the middle, as `median_u32` does. */
  method MedianU32(a: array<nat>) returns (m: nat)
    modifies a
    ensures a[..] == Sort(old(a[..]))
    ensures m == Median(old(a[..]))
  {
    if a.Length == 0 {
      return 0;
    }
    SortInPlace(a);
    var mid := a.Length / 2;
    if a.Length % 2 == 0 {
      m := (a[mid - 1] + a[mid]) / 2;
    } else {
      m := a[mid];
    }
  }

  // ---------------------------------------------------------------- a whole plane

  /** The variances of the tiles from `(tileX, tileY)` on, row by row over the padded grid. */
  ghost function VariancesFrom(plane: Plane, tileY: nat, tileX: nat): (s: seq<nat>)
    requires plane.Valid()
    decreases (plane.height + 7) / 8 - tileY, (plane.width + 7) / 8 - tileX
  {
    if tileY >= (plane.height + 7) / 8 then []
    else if tileX >= (plane.width + 7) / 8 then VariancesFrom(plane, tileY + 1, 0)
    else
      VarianceNeverUnderflows(PlaneTile(plane, tileX, tileY));
      var v: nat := RawVariance(PlaneTile(plane, tileX, tileY));
      [v] + VariancesFrom(plane, tileY, tileX + 1)
  }

  lemma VarianceSteps(plane: Plane, row: nat, column: nat)
    requires plane.Valid()
    ensures row >= (plane.height + 7) / 8 ==> VariancesFrom(plane, row, column) == []
    ensures row < (plane.height + 7) / 8 && column >= (plane.width + 7) / 8 ==>
      VariancesFrom(plane, row, column) == VariancesFrom(plane, row + 1, 0)
    ensures row < (plane.height + 7) / 8 && column < (plane.width + 7) / 8 ==>
      var v := RawVariance(PlaneTile(plane, column, row));
      v >= 0 && VariancesFrom(plane, row, column) == [v] + VariancesFrom(plane, row, column + 1)
  {
    VarianceNeverUnderflows(PlaneTile(plane, column, row));
    hide RawVariance, PlaneTile;
  }

  lemma PlaneTileIs(plane: Plane, tileX: nat, tileY: nat)
    requires plane.Valid()
    ensures Readable(plane, tileX, tileY, plane.width, plane.height)
    ensures PlaneTile(plane, tileX, tileY) == Tile(plane, tileX, tileY, plane.width, plane.height)
  {
    PlaneReadable(plane, tileX, tileY);
  }

  /** The sample in column `x` of row `y` of the plane. */
  function PlaneSample(plane: Plane, x: nat, y: nat): byte
    requires plane.Valid() && x < plane.width && y < plane.height
  {
    IndexInPlane(plane, x, y);
    plane.samples[SampleIndex(plane.stride, x, y)]
  }

  function Columns(plane: Plane): nat {
    (plane.width + 7) / 8
  }

  /** The variances of the rest of a row of tiles, from the left, and behind them those of the next rows. */
  lemma {:induction false} RowFirst(plane: Plane, row: nat, column: nat) returns (values: seq<nat>)
    requires plane.Valid() && row < (plane.height + 7) / 8 && column <= Columns(plane)
    ensures VariancesFrom(plane, row, column) == values + VariancesFrom(plane, row + 1, 0)
    ensures |values| == Columns(plane) - column
    ensures forall i :: 0 <= i < |values| ==> values[i] == RawVariance(PlaneTile(plane, column + i, row))
    decreases Columns(plane) - column
  {
    hide RawVariance, PlaneTile, VariancesFrom;
    VarianceSteps(plane, row, column);
    if column == Columns(plane) {
      values := [];
    } else {
      var more := RowFirst(plane, row, column + 1);
      values := [RawVariance(PlaneTile(plane, column, row))] + more;
      forall i | 0 <= i < |values|
        ensures values[i] == RawVariance(PlaneTile(plane, column + i, row))
      {
        assert i > 0 ==> values[i] == more[i - 1];
      }
    }
  }

  /** The place of a tile that has `rows` whole rows of tiles in front of its own. */
  function Place(rows: nat, columns: nat, x: nat): nat {
    rows * columns + x
  }

  lemma PlaceStep(rows: nat, columns: nat, x: nat)
    ensures Place(0, columns, x) == x && Place(rows + 1, columns, x) == Place(rows, columns, x) + columns
  {
  }

  /** Tiles are listed row by row, each row from the left. */
  lemma {:induction false} RasterOrder(plane: Plane, row: nat, tileX: nat, tileY: nat)
    requires plane.Valid() && tileX < Columns(plane) && row <= tileY < (plane.height + 7) / 8
    ensures var k := Place(tileY - row, Columns(plane), tileX);
      && k < |VariancesFrom(plane, row, 0)|
      && VariancesFrom(plane, row, 0)[k] == RawVariance(PlaneTile(plane, tileX, tileY))
    decreases tileY - row
  {
    hide RawVariance, PlaneTile, VariancesFrom, Columns, Place;
    var values := RowFirst(plane, row, 0);
    PlaceStep(if row < tileY then tileY - row - 1 else 0, Columns(plane), tileX);
    if row < tileY {
      RasterOrder(plane, row + 1, tileX, tileY);
    }
  }

  /** Every sample of the plane is `v`, and no padding of another value is needed. */
  ghost predicate Constant(plane: Plane, v: byte)
    requires plane.Valid()
  {
    && (v == 128 || (plane.width % 8 == 0 && plane.height % 8 == 0))
    && forall x: nat, y: nat :: x < plane.width && y < plane.height ==> PlaneSample(plane, x, y) == v
  }

  lemma TileSample(plane: Plane, tileX: nat, tileY: nat, k: nat)
    requires plane.Valid() && k < 64
    ensures var x, y := tileX * 8 + k % 8, tileY * 8 + k / 8;
      PlaneTile(plane, tileX, tileY)[k] == if x < plane.width && y < plane.height then PlaneSample(plane, x, y) else 128
  {
    hide SampleIndex, Rows, Plane.Valid;
    PlaneTileIs(plane, tileX, tileY);
  }

  lemma ConstantTile(plane: Plane, v: byte, tileX: nat, tileY: nat)
    requires plane.Valid() && Constant(plane, v) && tileX < (plane.width + 7) / 8 && tileY < (plane.height + 7) / 8
    ensures RawVariance(PlaneTile(plane, tileX, tileY)) == 0
  {
    hide PlaneTile, Constant, Plane.Valid, RawVariance;
    var tile := PlaneTile(plane, tileX, tileY);
    forall k | 0 <= k < 64
      ensures tile[k] == v
    {
      ConstantSample(plane, v, tileX, tileY, k);
    }
    FlatIsZero(v, tile);
  }

  lemma ConstantSample(plane: Plane, v: byte, tileX: nat, tileY: nat, k: nat)
    requires plane.Valid() && Constant(plane, v) && tileX < (plane.width + 7) / 8 && tileY < (plane.height + 7) / 8
    requires k < 64
    ensures PlaneTile(plane, tileX, tileY)[k] == v
  {
    hide SampleIndex, Rows, PlaneTile, PlaneSample, Plane.Valid;
    TileSample(plane, tileX, tileY, k);
    var x, y := tileX * 8 + k % 8, tileY * 8 + k / 8;
    if v != 128 {
      assert x < plane.width && y < plane.height;
    }
  }

  /** A constant plane has variance zero in every tile. */
  lemma {:induction false} ConstantPlaneIsFlat(plane: Plane, v: byte, tileY: nat, tileX: nat)
    requires plane.Valid() && Constant(plane, v)
    ensures forall i :: 0 <= i < |VariancesFrom(plane, tileY, tileX)| ==> VariancesFrom(plane, tileY, tileX)[i] == 0
    decreases (plane.height + 7) / 8 - tileY, (plane.width + 7) / 8 - tileX
  {
    hide VariancesFrom, RawVariance, PlaneTile;
    VarianceSteps(plane, tileY, tileX);
    if tileY < (plane.height + 7) / 8 {
      if tileX >= (plane.width + 7) / 8 {
        ConstantPlaneIsFlat(plane, v, tileY + 1, 0);
      } else {
        ConstantTile(plane, v, tileX, tileY);
        ConstantPlaneIsFlat(plane, v, tileY, tileX + 1);
      }
    }
  }

  /** The planes on which far more than half of the blocks are coarsened: a constant one coarsens them all. */
  lemma ConstantPlaneAllCoarsened(plane: Plane, v: byte, strength: byte, lo: i8, hi: i8)
    requires plane.Valid() && Constant(plane, v) && lo <= 0 < hi && strength >= 5
    ensures var vars := VariancesFrom(plane, 0, 0);
      CountPositive(Deltas(vars, Median(vars), strength, lo, hi)) == |vars|
  {
    hide Median, Deltas, VariancesFrom;
    ConstantPlaneIsFlat(plane, v, 0, 0);
    AllFlatAllCoarsened(VariancesFrom(plane, 0, 0), strength, lo, hi);
  }

  /** `median_u32` of a clone, so that the values keep their order. */
  method MedianOfClone(vars: seq<nat>) returns (med: nat)
    ensures med == Median(vars)
  {
    var sorted := new nat[|vars|](i requires 0 <= i < |vars| => vars[i]);
    assert sorted[..] == vars;
    med := MedianU32(sorted);
  }

  /** The inner loop of `collect_plane_block_variances`: one row of tiles. */
  method CollectRow(plane: Plane, row: nat, out: seq<nat>) returns (vars: seq<nat>)
    requires plane.Valid() && row < (plane.height + 7) / 8
    ensures vars + VariancesFrom(plane, row + 1, 0) == out + VariancesFrom(plane, row, 0)
  {
    hide *;
    var bw := (plane.width + 7) / 8;
    vars := out;
    for column := 0 to bw
      invariant vars + VariancesFrom(plane, row, column) == out + VariancesFrom(plane, row, 0)
    {
      VarianceSteps(plane, row, column);
      PlaneTileIs(plane, column, row);
      var v := ComputeBlockVariance(plane, column, row, plane.width, plane.height);
      assert vars + ([v] + VariancesFrom(plane, row, column + 1)) == vars + [v] + VariancesFrom(plane, row, column + 1);
      vars := vars + [v];
    }
    VarianceSteps(plane, row, bw);
  }

  /** `collect_plane_block_variances` */
  method CollectPlaneBlockVariances(plane: Plane) returns (vars: seq<nat>, med: nat)
    requires plane.Valid()
    ensures vars == VariancesFrom(plane, 0, 0)
    ensures med == Median(vars)
  {
    hide *;
    var bh := (plane.height + 7) / 8;
    vars := [];
    for row := 0 to bh
      invariant vars + VariancesFrom(plane, row, 0) == VariancesFrom(plane, 0, 0)
    {
      vars := CollectRow(plane, row, vars);
    }
    VarianceSteps(plane, bh, 0);
    med := MedianOfClone(vars);
  }

  /** The deltas that a plane's variances lead to, and how many of them can be negative or positive. */
  method PlaneDeltas(plane: Plane, strength: byte, lo: i8, hi: i8) returns (deltas: seq<i8>, med: nat)
    requires plane.Valid() && lo <= 0 <= hi
    ensures med == Median(VariancesFrom(plane, 0, 0))
    ensures deltas == Deltas(VariancesFrom(plane, 0, 0), med, strength, lo, hi)
    ensures CountNegative(deltas) <= |deltas| / 2
    ensures CountPositive(deltas) <= |deltas| / 2 <==> HalfCoarsened(VariancesFrom(plane, 0, 0), strength, hi)
  {
    var vars: seq<nat>;
    vars, med := CollectPlaneBlockVariances(plane);
    deltas := Deltas(vars, med, strength, lo, hi);
    HalfAndHalf(vars, strength, lo, hi);
  }

  // ---------------------------------------------------------------- validators

  /** `validate_wire_qp_delta` */
  function ValidateWireDelta(d: i8): (r: Result<(), AqError>)
    ensures r.Success? <==> -24 <= d <= 24
  {
    if QP_DELTA_WIRE_MIN <= d <= QP_DELTA_WIRE_MAX then Success(()) else Failure(DeltaOutOfRange)
  }

  /** `validate_qp_clip_range`: what it accepts is what `QpInRange` needs. */
  function ValidateClipRange(clipMin: byte, clipMax: byte): (r: Result<(), AqError>)
    ensures r.Success? <==> ValidClip(clipMin, clipMax)
  {
    if clipMin > clipMax || clipMin == 0 || clipMax > 51 then Failure(InvalidClipRange) else Success(())
  }
}
