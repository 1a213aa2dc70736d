/** The grid planner of a sample: how many rows and columns of overlapping
    images cover it, where each image is centred, and the two serpentine
    halves (from the centre cell outwards) in which the targets are visited. */
module SamplePlan {
  import opened PyNum

  datatype Point3 = Point3(x: real, y: real, z: real)

  /** One image target: stage coordinates of its centre and its grid cell */
  datatype Target = Target(x: real, y: real, z: real, row: int, col: int)

  datatype GridParams = GridParams(rows: int, cols: int, xStep: real, yStep: real)

  // ---------------------------------------------------------------------
  // Grid parameters (calculate_grid_params)
  // ---------------------------------------------------------------------

  /** Distance between neighbouring image centres along one axis: the image
      extent minus the overlap, the overlap rounded to thousandths. */
  function StepSize(imageMm: real, percentOverlap: real): real
  {
    imageMm - RoundTo(imageMm * percentOverlap / 100.0, 3)
  }

  /** Images along one axis: one for a zero step, otherwise the ceiling of
      extent / step, bumped to the next odd number. */
  function CellCount(extent: real, step: real): (n: int)
    ensures n % 2 == 1
  {
    var c := if step == 0.0 then 1 else Ceil(extent / step);
    if c % 2 != 1 then c + 1 else c
  }

  function CalculateGridParams(width: real, height: real, imageWidthMm: real,
                               imageHeightMm: real, percentOverlap: real): GridParams
  {
    var xStep := StepSize(imageWidthMm, percentOverlap);
    var yStep := StepSize(imageHeightMm, percentOverlap);
    GridParams(CellCount(height, yStep), CellCount(width, xStep), xStep, yStep)
  }

  /** With a positive step, the count is the least odd number of steps that
      spans the extent. */
  lemma CellCountLeastOddCover(extent: real, step: real)
    requires extent >= 0.0 && step > 0.0
    ensures var n := CellCount(extent, step);
      n >= 1 && n % 2 == 1 && n as real * step >= extent && (n - 2) as real * step < extent
  {
    var q := extent / step;
    var c := Ceil(q);
    var n := CellCount(extent, step);
    assert q * step == extent;
    assert c >= 0;
    assert n == c || n == c + 1;
    assert n as real >= q;
    assert n as real * step >= q * step;
    assert (n - 2) as real < q;
    assert (n - 2) as real * step < q * step;
    assert (n - 2) as real * step < extent;
  }

  /** The step along an axis is never negative when the image extent has at
      most three decimals and the overlap is at most 100 percent. */
  lemma StepSizeNonNegative(imageMm: real, percentOverlap: real)
    requires imageMm >= 0.0 && OnGrid(imageMm, 3) && percentOverlap <= 100.0
    ensures StepSize(imageMm, percentOverlap) >= 0.0
  {
    var o := imageMm * percentOverlap / 100.0;
    assert o <= imageMm by {
      assert imageMm * percentOverlap <= imageMm * 100.0;
    }
    RoundBelowGridValue(o, imageMm, 3);
  }

  /** Row and column counts are odd and at least one for any sample of
      non-negative extent. */
  lemma {:induction false} GridParamsOddAndPositive(width: real, height: real, imageWidthMm: real,
                                                    imageHeightMm: real, percentOverlap: real)
    requires width >= 0.0 && height >= 0.0
    requires imageWidthMm >= 0.0 && OnGrid(imageWidthMm, 3)
    requires imageHeightMm >= 0.0 && OnGrid(imageHeightMm, 3)
    requires percentOverlap <= 100.0
    ensures var g := CalculateGridParams(width, height, imageWidthMm, imageHeightMm, percentOverlap);
      g.rows >= 1 && g.rows % 2 == 1 && g.cols >= 1 && g.cols % 2 == 1
  {
    StepSizeNonNegative(imageWidthMm, percentOverlap);
    StepSizeNonNegative(imageHeightMm, percentOverlap);
    var g := CalculateGridParams(width, height, imageWidthMm, imageHeightMm, percentOverlap);
    if g.xStep > 0.0 { CellCountLeastOddCover(width, g.xStep); }
    if g.yStep > 0.0 { CellCountLeastOddCover(height, g.yStep); }
  }

  // ---------------------------------------------------------------------
  // Offsets along an axis (the cumulative sums around the centre)
  // ---------------------------------------------------------------------

  function Repeat(v: real, n: nat): (s: seq<real>)
    ensures |s| == n && forall i :: 0 <= i < n ==> s[i] == v
  {
    seq(n, _ => v)
  }

  /** Running sums of s, each added to acc */
  function CumSum(s: seq<real>, acc: real): (r: seq<real>)
    ensures |r| == |s|
  {
    if s == [] then [] else [acc + s[0]] + CumSum(s[1..], acc + s[0])
  }

  function Reverse<T>(s: seq<T>): (r: seq<T>)
    ensures |r| == |s| && forall i :: 0 <= i < |s| ==> r[i] == s[|s| - 1 - i]
  {
    seq(|s|, i requires 0 <= i < |s| => s[|s| - 1 - i])
  }

  function Negate(s: seq<real>): (r: seq<real>)
    ensures |r| == |s| && forall i :: 0 <= i < |s| ==> r[i] == -s[i]
  {
    seq(|s|, i requires 0 <= i < |s| => -s[i])
  }

  /** The offsets of the cells along one axis of 2 * half + 1 cells: the
      reversed negated cumulative steps, zero, then the cumulative steps. */
  function AxisOffsets(step: real, half: nat): seq<real>
  {
    var up := CumSum(Repeat(step, half), 0.0);
    Negate(Reverse(up)) + [0.0] + up
  }

  lemma {:induction false} CumSumOfRepeat(step: real, n: nat, acc: real, i: nat)
    requires i < n
    ensures CumSum(Repeat(step, n), acc)[i] == acc + (i + 1) as real * step
    decreases n
  {
    var s := Repeat(step, n);
    assert s[1..] == Repeat(step, n - 1);
    if i > 0 {
      CumSumOfRepeat(step, n - 1, acc + step, i - 1);
    }
  }

  /** Cell j of the axis sits (j - half) steps from the centre. */
  lemma AxisOffsetAt(step: real, half: nat, j: nat)
    requires j < 2 * half + 1
    ensures |AxisOffsets(step, half)| == 2 * half + 1
    ensures AxisOffsets(step, half)[j] == (j - half) as real * step
  {
    var up := CumSum(Repeat(step, half), 0.0);
    var a := AxisOffsets(step, half);
    if j < half {
      assert a[j] == -up[half - 1 - j];
      CumSumOfRepeat(step, half, 0.0, half - 1 - j);
    } else if j > half {
      assert a[j] == up[j - half - 1];
      CumSumOfRepeat(step, half, 0.0, j - half - 1);
    }
  }

  // ---------------------------------------------------------------------
  // The grid and its two halves (calculate_image_locations)
  // ---------------------------------------------------------------------

  predicate ValidDims(rows: int, cols: int)
  {
    rows >= 1 && cols >= 1 && rows % 2 == 1 && cols % 2 == 1
  }

  /** The target of cell (r, c): the sample centre moved by (c - cols // 2)
      column steps and (r - rows // 2) row steps, at the centre's height */
  function CellTarget(center: Point3, rows: int, cols: int, xStep: real, yStep: real,
                      r: int, c: int): (t: Target)
    requires ValidDims(rows, cols) && 0 <= r < rows && 0 <= c < cols
    ensures t.row == r && t.col == c && t.z == center.z
    ensures t.x == center.x + (c - cols / 2) as real * xStep
    ensures t.y == center.y + (r - rows / 2) as real * yStep
    ensures c == cols / 2 ==> t.x == center.x
    ensures r == rows / 2 ==> t.y == center.y
  {
    Target(AxisCoord(center.x, xStep, cols / 2, c), AxisCoord(center.y, yStep, rows / 2, r), center.z, r, c)
  }

  /** The coordinate of cell j on an axis of 2 * half + 1 cells centred on
      origin */
  function AxisCoord(origin: real, step: real, half: nat, j: int): (v: real)
    requires 0 <= j < 2 * half + 1
    ensures v == origin + (j - half) as real * step
    ensures j == half ==> v == origin
  {
    AxisOffsetAt(step, half, j);
    origin + AxisOffsets(step, half)[j]
  }

  /** All targets in row-major order (the reshaped grid) */
  function GridLong(center: Point3, rows: int, cols: int, xStep: real, yStep: real): (g: seq<Target>)
    requires ValidDims(rows, cols)
    ensures |g| == rows * cols
  {
    assert rows * cols >= 1;
    seq(rows * cols, f requires 0 <= f < rows * cols =>
      CellIndexBounds(f, rows, cols);
      CellTarget(center, rows, cols, xStep, yStep, f / cols, f % cols))
  }

  lemma CellIndexBounds(f: int, rows: int, cols: int)
    requires rows >= 1 && cols >= 1 && 0 <= f < rows * cols
    ensures 0 <= f / cols < rows && 0 <= f % cols < cols
  {
  }

  /** The index at which the flattened grid is split: ceil(rows * cols / 2) */
  function CenterIndex(rows: int, cols: int): int
  {
    (rows * cols + 1) / 2
  }

  /** The top half before re-sorting: the first half of the grid, reversed */
  function TopRaw(center: Point3, rows: int, cols: int, xStep: real, yStep: real): seq<Target>
    requires ValidDims(rows, cols)
  {
    Reverse(GridLong(center, rows, cols, xStep, yStep)[..CenterIndex(rows, cols)])
  }

  /** The bottom half before re-sorting: the rest of the grid */
  function BotRaw(center: Point3, rows: int, cols: int, xStep: real, yStep: real): seq<Target>
    requires ValidDims(rows, cols)
  {
    GridLong(center, rows, cols, xStep, yStep)[CenterIndex(rows, cols)..]
  }

  /** Rows whose parity differs from the middle row's are the ones the
      masked sort re-orders. */
  predicate Flipped(rows: int, r: int)
  {
    (r - rows / 2) % 2 == 1
  }

  /** The masked re-sort: an entry of a re-ordered row is replaced by the
      entry of the same row at the mirrored column; other entries stay. */
  function Resort(center: Point3, rows: int, cols: int, xStep: real, yStep: real, t: Target): Target
    requires ValidDims(rows, cols) && 0 <= t.row < rows && 0 <= t.col < cols
  {
    if Flipped(rows, t.row)
    then CellTarget(center, rows, cols, xStep, yStep, t.row, cols - 1 - t.col)
    else t
  }

  predicate InGrid(rows: int, cols: int, s: seq<Target>)
  {
    forall i :: 0 <= i < |s| ==> 0 <= s[i].row < rows && 0 <= s[i].col < cols
  }

  lemma GridLongInGrid(center: Point3, rows: int, cols: int, xStep: real, yStep: real)
    requires ValidDims(rows, cols)
    ensures var g := GridLong(center, rows, cols, xStep, yStep);
      forall f :: 0 <= f < |g| ==> g[f].row == f / cols && g[f].col == f % cols && 0 <= g[f].row < rows && 0 <= g[f].col < cols
  {
    var g := GridLong(center, rows, cols, xStep, yStep);
    forall f | 0 <= f < |g|
      ensures g[f].row == f / cols && g[f].col == f % cols && 0 <= g[f].row < rows && 0 <= g[f].col < cols
    {
      CellIndexBounds(f, rows, cols);
    }
  }

  function TargetsTop(center: Point3, rows: int, cols: int, xStep: real, yStep: real): (s: seq<Target>)
    requires ValidDims(rows, cols)
    ensures |s| == CenterIndex(rows, cols)
  {
    var raw := TopRaw(center, rows, cols, xStep, yStep);
    GridLongInGrid(center, rows, cols, xStep, yStep);
    seq(|raw|, i requires 0 <= i < |raw| => Resort(center, rows, cols, xStep, yStep, raw[i]))
  }

  function TargetsBot(center: Point3, rows: int, cols: int, xStep: real, yStep: real): (s: seq<Target>)
    requires ValidDims(rows, cols)
    ensures |s| == rows * cols - CenterIndex(rows, cols)
  {
    var raw := BotRaw(center, rows, cols, xStep, yStep);
    GridLongInGrid(center, rows, cols, xStep, yStep);
    seq(|raw|, i requires 0 <= i < |raw| => Resort(center, rows, cols, xStep, yStep, raw[i]))
  }

  // ---------------------------------------------------------------------
  // Properties of the two halves
  // ---------------------------------------------------------------------

  /** The column at which a target of row r and grid column c ends up after
      the masked re-sort */
  function SerpCol(rows: int, cols: int, r: int, c: int): int
  {
    if Flipped(rows, r) then cols - 1 - c else c
  }

  /** The re-sorted target that came from position f of the row-major grid */
  function FlatTarget(center: Point3, rows: int, cols: int, xStep: real, yStep: real, f: int): (t: Target)
    requires ValidDims(rows, cols) && 0 <= f < rows * cols
    ensures 0 <= t.row < rows && 0 <= t.col < cols
    ensures t.row == f / cols && t.col == SerpCol(rows, cols, f / cols, f % cols)
  {
    CellIndexBounds(f, rows, cols);
    CellTarget(center, rows, cols, xStep, yStep, f / cols, SerpCol(rows, cols, f / cols, f % cols))
  }

  lemma TopAt(center: Point3, rows: int, cols: int, xStep: real, yStep: real, i: int)
    requires ValidDims(rows, cols) && 0 <= i < CenterIndex(rows, cols)
    ensures CenterIndex(rows, cols) <= rows * cols
    ensures TargetsTop(center, rows, cols, xStep, yStep)[i]
         == FlatTarget(center, rows, cols, xStep, yStep, CenterIndex(rows, cols) - 1 - i)
  {
    var f := CenterIndex(rows, cols) - 1 - i;
    TopRawAt(center, rows, cols, xStep, yStep, i, f);
    ResortAt(center, rows, cols, xStep, yStep, f);
  }

  /** Entry i of the reversed first half is position ci - 1 - i of the grid. */
  lemma TopRawAt(center: Point3, rows: int, cols: int, xStep: real, yStep: real, i: int, f: int)
    requires ValidDims(rows, cols) && 0 <= i < CenterIndex(rows, cols) && f == CenterIndex(rows, cols) - 1 - i
    ensures CenterIndex(rows, cols) <= rows * cols
    ensures TopRaw(center, rows, cols, xStep, yStep)[i] == GridLong(center, rows, cols, xStep, yStep)[f]
  {
    var g := GridLong(center, rows, cols, xStep, yStep);
    var pre := g[..CenterIndex(rows, cols)];
    assert pre[|pre| - 1 - i] == g[f];
  }

  lemma BotAt(center: Point3, rows: int, cols: int, xStep: real, yStep: real, i: int)
    requires ValidDims(rows, cols) && 0 <= i < rows * cols - CenterIndex(rows, cols)
    ensures TargetsBot(center, rows, cols, xStep, yStep)[i]
         == FlatTarget(center, rows, cols, xStep, yStep, CenterIndex(rows, cols) + i)
  {
    var f := CenterIndex(rows, cols) + i;
    var raw := BotRaw(center, rows, cols, xStep, yStep);
    assert raw[i] == GridLong(center, rows, cols, xStep, yStep)[f];
    ResortAt(center, rows, cols, xStep, yStep, f);
  }

  /** Re-sorting the target at position f of the row-major grid gives the
      target of its serpentine cell. */
  lemma ResortAt(center: Point3, rows: int, cols: int, xStep: real, yStep: real, f: int)
    requires ValidDims(rows, cols) && 0 <= f < rows * cols
    ensures var g := GridLong(center, rows, cols, xStep, yStep);
      0 <= g[f].row < rows && 0 <= g[f].col < cols &&
      Resort(center, rows, cols, xStep, yStep, g[f]) == FlatTarget(center, rows, cols, xStep, yStep, f)
  {
    CellIndexBounds(f, rows, cols);
  }

  /** Two targets whose cells are one row or one column apart */
  predicate Adjacent(a: Target, b: Target)
  {
    AdjacentCells(a.row, a.col, b.row, b.col)
  }

  predicate AdjacentCells(r1: int, c1: int, r2: int, c2: int)
  {
    (r1 == r2 && (c1 - c2 == 1 || c2 - c1 == 1)) ||
    (c1 == c2 && (r1 - r2 == 1 || r2 - r1 == 1))
  }

  /** Consecutive positions of the row-major grid are adjacent cells after
      the re-sort: the serpentine step. */
  lemma FlatAdjacent(rows: int, cols: int, f: int)
    requires cols >= 1 && 0 <= f
    ensures AdjacentCells(f / cols, SerpCol(rows, cols, f / cols, f % cols),
                          (f + 1) / cols, SerpCol(rows, cols, (f + 1) / cols, (f + 1) % cols))
  {
    var r, c := f / cols, f % cols;
    if c < cols - 1 {
      DivModUnique(f + 1, cols, r, c + 1);
    } else {
      assert f + 1 == (r + 1) * cols + 0 by {
        assert (r + 1) * cols == r * cols + cols;
      }
      DivModUnique(f + 1, cols, r + 1, 0);
      assert Flipped(rows, r + 1) == !Flipped(rows, r);
    }
  }

  /** The cell of top entry i, which came from position f of the grid */
  lemma TopCellAt(center: Point3, rows: int, cols: int, xStep: real, yStep: real, i: int, f: int)
    requires ValidDims(rows, cols) && 0 <= i < CenterIndex(rows, cols) && f == CenterIndex(rows, cols) - 1 - i
    ensures 0 <= f < rows * cols
    ensures var t := TargetsTop(center, rows, cols, xStep, yStep)[i];
      t.row == f / cols && t.col == SerpCol(rows, cols, f / cols, f % cols)
  {
    TopAt(center, rows, cols, xStep, yStep, i);
  }

  /** The cell of bottom entry i, which came from position f of the grid */
  lemma BotCellAt(center: Point3, rows: int, cols: int, xStep: real, yStep: real, i: int, f: int)
    requires ValidDims(rows, cols) && 0 <= i < rows * cols - CenterIndex(rows, cols) && f == CenterIndex(rows, cols) + i
    ensures 0 <= f < rows * cols
    ensures var t := TargetsBot(center, rows, cols, xStep, yStep)[i];
      t.row == f / cols && t.col == SerpCol(rows, cols, f / cols, f % cols)
  {
    BotAt(center, rows, cols, xStep, yStep, i);
  }

  lemma FlatAdjacentPair(rows: int, cols: int, f: int, g: int)
    requires cols >= 1 && 0 <= f && g == f + 1
    ensures AdjacentCells(f / cols, SerpCol(rows, cols, f / cols, f % cols),
                          g / cols, SerpCol(rows, cols, g / cols, g % cols))
  {
    FlatAdjacent(rows, cols, f);
  }

  lemma TopStep(center: Point3, rows: int, cols: int, xStep: real, yStep: real, i: int)
    requires ValidDims(rows, cols) && 0 <= i < CenterIndex(rows, cols) - 1
    ensures var top := TargetsTop(center, rows, cols, xStep, yStep);
      Adjacent(top[i], top[i + 1]) && top[i].row >= top[i + 1].row
  {
    var ci := CenterIndex(rows, cols);
    var j := i + 1;
    var f, g := ci - 1 - j, ci - 1 - i;
    TopCellAt(center, rows, cols, xStep, yStep, i, g);
    TopCellAt(center, rows, cols, xStep, yStep, j, f);
    FlatAdjacentPair(rows, cols, f, g);
    DivMonotone(f, g, cols);
  }

  lemma BotStep(center: Point3, rows: int, cols: int, xStep: real, yStep: real, i: int)
    requires ValidDims(rows, cols) && 0 <= i < rows * cols - CenterIndex(rows, cols) - 1
    ensures var bot := TargetsBot(center, rows, cols, xStep, yStep);
      Adjacent(bot[i], bot[i + 1]) && bot[i].row <= bot[i + 1].row
  {
    var ci := CenterIndex(rows, cols);
    var j := i + 1;
    var f, g := ci + i, ci + j;
    BotCellAt(center, rows, cols, xStep, yStep, i, f);
    BotCellAt(center, rows, cols, xStep, yStep, j, g);
    FlatAdjacentPair(rows, cols, f, g);
    DivMonotone(f, g, cols);
  }

  /** Consecutive targets within either half are adjacent cells, and the
      rows never increase through the top half nor decrease through the
      bottom half. */
  lemma SerpentineHalves(center: Point3, rows: int, cols: int, xStep: real, yStep: real)
    requires ValidDims(rows, cols)
    ensures var top := TargetsTop(center, rows, cols, xStep, yStep);
      forall i :: 0 <= i < |top| - 1 ==> Adjacent(top[i], top[i + 1]) && top[i].row >= top[i + 1].row
    ensures var bot := TargetsBot(center, rows, cols, xStep, yStep);
      forall i :: 0 <= i < |bot| - 1 ==> Adjacent(bot[i], bot[i + 1]) && bot[i].row <= bot[i + 1].row
  {
    var top := TargetsTop(center, rows, cols, xStep, yStep);
    var bot := TargetsBot(center, rows, cols, xStep, yStep);
    forall i | 0 <= i < |top| - 1
      ensures Adjacent(top[i], top[i + 1]) && top[i].row >= top[i + 1].row
    {
      TopStep(center, rows, cols, xStep, yStep, i);
    }
    forall i | 0 <= i < |bot| - 1
      ensures Adjacent(bot[i], bot[i + 1]) && bot[i].row <= bot[i + 1].row
    {
      BotStep(center, rows, cols, xStep, yStep, i);
    }
  }

  /** The visiting order: the top half, then the bottom half */
  function Plan(center: Point3, rows: int, cols: int, xStep: real, yStep: real): seq<Target>
    requires ValidDims(rows, cols)
  {
    TargetsTop(center, rows, cols, xStep, yStep) + TargetsBot(center, rows, cols, xStep, yStep)
  }

  /** The position in the row-major grid that plan entry i came from */
  function PlanSource(ci: int, i: int): int
  {
    if i < ci then ci - 1 - i else i
  }

  lemma PlanAt(center: Point3, rows: int, cols: int, xStep: real, yStep: real, i: int)
    requires ValidDims(rows, cols) && 0 <= i < rows * cols
    ensures |Plan(center, rows, cols, xStep, yStep)| == rows * cols
    ensures 0 <= PlanSource(CenterIndex(rows, cols), i) < rows * cols
    ensures Plan(center, rows, cols, xStep, yStep)[i]
         == FlatTarget(center, rows, cols, xStep, yStep, PlanSource(CenterIndex(rows, cols), i))
  {
    var ci := CenterIndex(rows, cols);
    var f := PlanSource(ci, i);
    if i < ci {
      assert f == ci - 1 - i;
      PlanTopAt(center, rows, cols, xStep, yStep, i, f);
    } else {
      var j := i - ci;
      assert f == ci + j;
      PlanBotAt(center, rows, cols, xStep, yStep, i, j, f);
    }
  }

  lemma PlanTopAt(center: Point3, rows: int, cols: int, xStep: real, yStep: real, i: int, f: int)
    requires ValidDims(rows, cols) && 0 <= i < CenterIndex(rows, cols) && f == CenterIndex(rows, cols) - 1 - i
    ensures |Plan(center, rows, cols, xStep, yStep)| == rows * cols && 0 <= f < rows * cols
    ensures Plan(center, rows, cols, xStep, yStep)[i] == FlatTarget(center, rows, cols, xStep, yStep, f)
  {
    var top, bot := TargetsTop(center, rows, cols, xStep, yStep), TargetsBot(center, rows, cols, xStep, yStep);
    TopAt(center, rows, cols, xStep, yStep, i);
    assert (top + bot)[i] == top[i];
  }

  lemma PlanBotAt(center: Point3, rows: int, cols: int, xStep: real, yStep: real, i: int, j: int, f: int)
    requires ValidDims(rows, cols) && CenterIndex(rows, cols) <= i < rows * cols
    requires j == i - CenterIndex(rows, cols) && f == CenterIndex(rows, cols) + j
    ensures |Plan(center, rows, cols, xStep, yStep)| == rows * cols && 0 <= f < rows * cols
    ensures Plan(center, rows, cols, xStep, yStep)[i] == FlatTarget(center, rows, cols, xStep, yStep, f)
  {
    var top, bot := TargetsTop(center, rows, cols, xStep, yStep), TargetsBot(center, rows, cols, xStep, yStep);
    BotAt(center, rows, cols, xStep, yStep, j);
    assert (top + bot)[i] == bot[j];
  }

  /** The cell of plan entry i, in terms of the grid position it came from */
  lemma PlanCellAt(center: Point3, rows: int, cols: int, xStep: real, yStep: real, i: int)
    requires ValidDims(rows, cols) && 0 <= i < rows * cols
    ensures var p, f := Plan(center, rows, cols, xStep, yStep), PlanSource(CenterIndex(rows, cols), i);
      |p| == rows * cols && 0 <= f < rows * cols &&
      p[i].row == f / cols && p[i].col == SerpCol(rows, cols, f / cols, f % cols) &&
      0 <= p[i].row < rows && 0 <= p[i].col < cols
  {
    PlanAt(center, rows, cols, xStep, yStep, i);
  }

  /** The top half has ceil(n / 2) targets and the bottom half the rest;
      the top half starts at the centre cell, placed at the sample centre. */
  lemma HalvesStartAtCenter(center: Point3, rows: int, cols: int, xStep: real, yStep: real)
    requires ValidDims(rows, cols)
    ensures var top := TargetsTop(center, rows, cols, xStep, yStep);
      |top| == (rows * cols + 1) / 2 && top[0].row == rows / 2 && top[0].col == cols / 2 &&
      top[0].x == center.x && top[0].y == center.y && top[0].z == center.z
    ensures |TargetsBot(center, rows, cols, xStep, yStep)| == (rows * cols - 1) / 2
  {
    var h, m := rows / 2, cols / 2;
    CenterIndexSplit(rows, cols, h, m);
    TopStartsAtCenter(center, rows, cols, xStep, yStep, h, m);
  }

  /** The centre cell (h, m) sits at position h * cols + m of the row-major
      grid, the last position of the first half. */
  lemma CenterIndexSplit(rows: int, cols: int, h: int, m: int)
    requires ValidDims(rows, cols) && h == rows / 2 && m == cols / 2
    ensures CenterIndex(rows, cols) - 1 == h * cols + m
    ensures rows * cols - CenterIndex(rows, cols) == (rows * cols - 1) / 2
  {
    var n := rows * cols;
    assert n == 2 * (h * cols) + cols by {
      assert rows == 2 * h + 1;
      assert (2 * h + 1) * cols == 2 * (h * cols) + cols;
    }
  }

  lemma TopStartsAtCenter(center: Point3, rows: int, cols: int, xStep: real, yStep: real, h: int, m: int)
    requires ValidDims(rows, cols) && h == rows / 2 && m == cols / 2
    requires CenterIndex(rows, cols) - 1 == h * cols + m
    ensures var top := TargetsTop(center, rows, cols, xStep, yStep);
      top[0].row == h && top[0].col == m &&
      top[0].x == center.x && top[0].y == center.y && top[0].z == center.z
  {
    TopFirstIsCentre(center, rows, cols, xStep, yStep, h, m);
  }

  lemma TopFirstIsCentre(center: Point3, rows: int, cols: int, xStep: real, yStep: real, h: int, m: int)
    requires ValidDims(rows, cols) && h == rows / 2 && m == cols / 2
    requires CenterIndex(rows, cols) - 1 == h * cols + m
    ensures 0 <= h < rows && 0 <= m < cols
    ensures TargetsTop(center, rows, cols, xStep, yStep)[0] == CellTarget(center, rows, cols, xStep, yStep, h, m)
  {
    var f := CenterIndex(rows, cols) - 1 - 0;
    TopCellAt(center, rows, cols, xStep, yStep, 0, f);
    DivModUnique(f, cols, h, m);
    assert SerpCol(rows, cols, h, m) == m;
    TopCoordAt(center, rows, cols, xStep, yStep, 0);
  }

  /** Every top entry is the target of its own cell. */
  lemma TopCoordAt(center: Point3, rows: int, cols: int, xStep: real, yStep: real, i: int)
    requires ValidDims(rows, cols) && 0 <= i < CenterIndex(rows, cols)
    ensures var t := TargetsTop(center, rows, cols, xStep, yStep)[i];
      0 <= t.row < rows && 0 <= t.col < cols && t == CellTarget(center, rows, cols, xStep, yStep, t.row, t.col)
  {
    TopAt(center, rows, cols, xStep, yStep, i);
  }

  /** Some plan entry has cell (r, c) */
  ghost predicate Visits(p: seq<Target>, r: int, c: int)
  {
    exists i :: 0 <= i < |p| && p[i].row == r && p[i].col == c
  }

  lemma CellVisited(center: Point3, rows: int, cols: int, xStep: real, yStep: real, r: int, c: int)
    requires ValidDims(rows, cols) && 0 <= r < rows && 0 <= c < cols
    ensures Visits(Plan(center, rows, cols, xStep, yStep), r, c)
  {
    var ci := CenterIndex(rows, cols);
    var c' := SerpCol(rows, cols, r, c);
    var f := r * cols + c';
    MulMonotone(r, rows - 1, cols);
    assert (rows - 1) * cols == rows * cols - cols;
    DivModUnique(f, cols, r, c');
    var i := if f < ci then ci - 1 - f else f;
    assert PlanSource(ci, i) == f;
    PlanCellAt(center, rows, cols, xStep, yStep, i);
  }

  /** Two different positions of the row-major grid end up in different cells. */
  lemma FlatCellsDistinct(rows: int, cols: int, f: int, g: int)
    requires cols >= 1 && 0 <= f && 0 <= g && f != g
    ensures f / cols != g / cols || SerpCol(rows, cols, f / cols, f % cols) != SerpCol(rows, cols, g / cols, g % cols)
  {
    if f / cols == g / cols {
      assert f == (f / cols) * cols + f % cols;
      assert g == (g / cols) * cols + g % cols;
    }
  }

  lemma CellsDistinct(center: Point3, rows: int, cols: int, xStep: real, yStep: real, i: int, j: int)
    requires ValidDims(rows, cols) && 0 <= i < j < rows * cols
    ensures var p := Plan(center, rows, cols, xStep, yStep);
      p[i].row != p[j].row || p[i].col != p[j].col
  {
    var ci := CenterIndex(rows, cols);
    PlanCellAt(center, rows, cols, xStep, yStep, i);
    PlanCellAt(center, rows, cols, xStep, yStep, j);
    FlatCellsDistinct(rows, cols, PlanSource(ci, i), PlanSource(ci, j));
  }

  /** Every cell of the grid is visited exactly once by the two halves. */
  lemma PlanCoversGridOnce(center: Point3, rows: int, cols: int, xStep: real, yStep: real)
    requires ValidDims(rows, cols)
    ensures var p := Plan(center, rows, cols, xStep, yStep);
      |p| == rows * cols &&
      (forall i :: 0 <= i < |p| ==> 0 <= p[i].row < rows && 0 <= p[i].col < cols) &&
      (forall r, c :: 0 <= r < rows && 0 <= c < cols ==> Visits(p, r, c)) &&
      (forall i, j :: 0 <= i < j < |p| ==> p[i].row != p[j].row || p[i].col != p[j].col)
  {
    var p := Plan(center, rows, cols, xStep, yStep);
    PlanCellAt(center, rows, cols, xStep, yStep, 0);
    forall i | 0 <= i < |p|
      ensures 0 <= p[i].row < rows && 0 <= p[i].col < cols
    {
      PlanCellAt(center, rows, cols, xStep, yStep, i);
    }
    forall r, c | 0 <= r < rows && 0 <= c < cols
      ensures Visits(p, r, c)
    {
      CellVisited(center, rows, cols, xStep, yStep, r, c);
    }
    forall i, j | 0 <= i < j < |p|
      ensures p[i].row != p[j].row || p[i].col != p[j].col
    {
      CellsDistinct(center, rows, cols, xStep, yStep, i, j);
    }
  }

  lemma TopPairOrder(center: Point3, rows: int, cols: int, xStep: real, yStep: real, i: int, j: int)
    requires ValidDims(rows, cols) && 0 <= i < j < CenterIndex(rows, cols)
    ensures var top := TargetsTop(center, rows, cols, xStep, yStep);
      top[i].row == top[j].row ==> (Flipped(rows, top[i].row) <==> top[i].col < top[j].col)
  {
    var ci := CenterIndex(rows, cols);
    var f, g := ci - 1 - j, ci - 1 - i;
    TopCellAt(center, rows, cols, xStep, yStep, i, g);
    TopCellAt(center, rows, cols, xStep, yStep, j, f);
    var top := TargetsTop(center, rows, cols, xStep, yStep);
    if top[i].row == top[j].row {
      SameRowOrder(cols, f, g);
    }
  }

  lemma BotPairOrder(center: Point3, rows: int, cols: int, xStep: real, yStep: real, i: int, j: int)
    requires ValidDims(rows, cols) && 0 <= i < j < rows * cols - CenterIndex(rows, cols)
    ensures var bot := TargetsBot(center, rows, cols, xStep, yStep);
      bot[i].row == bot[j].row ==> (Flipped(rows, bot[i].row) <==> bot[i].col > bot[j].col)
  {
    var ci := CenterIndex(rows, cols);
    var f, g := ci + i, ci + j;
    BotCellAt(center, rows, cols, xStep, yStep, i, f);
    BotCellAt(center, rows, cols, xStep, yStep, j, g);
    var bot := TargetsBot(center, rows, cols, xStep, yStep);
    if bot[i].row == bot[j].row {
      SameRowOrder(cols, f, g);
    }
  }

  /** The masked re-sort as numpy performs it: every position keeps its row;
      positions of rows with the middle row's parity keep their entry, the
      other rows' entries are mirrored; and within one row the top half runs
      with ascending columns on re-sorted rows and descending ones elsewhere,
      the bottom half the other way round. */
  lemma ResortOrder(center: Point3, rows: int, cols: int, xStep: real, yStep: real)
    requires ValidDims(rows, cols)
    ensures var top, raw := TargetsTop(center, rows, cols, xStep, yStep), TopRaw(center, rows, cols, xStep, yStep);
      |top| == |raw| &&
      (forall i :: 0 <= i < |top| ==>
         (top[i].row == raw[i].row &&
          if Flipped(rows, raw[i].row) then top[i].col == cols - 1 - raw[i].col else top[i] == raw[i])) &&
      (forall i, j :: 0 <= i < j < |top| && top[i].row == top[j].row ==>
         (Flipped(rows, top[i].row) <==> top[i].col < top[j].col))
    ensures var bot, raw := TargetsBot(center, rows, cols, xStep, yStep), BotRaw(center, rows, cols, xStep, yStep);
      |bot| == |raw| &&
      (forall i :: 0 <= i < |bot| ==>
         (bot[i].row == raw[i].row &&
          if Flipped(rows, raw[i].row) then bot[i].col == cols - 1 - raw[i].col else bot[i] == raw[i])) &&
      (forall i, j :: 0 <= i < j < |bot| && bot[i].row == bot[j].row ==>
         (Flipped(rows, bot[i].row) <==> bot[i].col > bot[j].col))
  {
    var top := TargetsTop(center, rows, cols, xStep, yStep);
    var bot := TargetsBot(center, rows, cols, xStep, yStep);
    GridLongInGrid(center, rows, cols, xStep, yStep);
    forall i, j | 0 <= i < j < |top| && top[i].row == top[j].row
      ensures Flipped(rows, top[i].row) <==> top[i].col < top[j].col
    {
      TopPairOrder(center, rows, cols, xStep, yStep, i, j);
    }
    forall i, j | 0 <= i < j < |bot| && bot[i].row == bot[j].row
      ensures Flipped(rows, bot[i].row) <==> bot[i].col > bot[j].col
    {
      BotPairOrder(center, rows, cols, xStep, yStep, i, j);
    }
  }

  lemma SameRowOrder(cols: int, f: int, g: int)
    requires cols >= 1 && 0 <= f < g && f / cols == g / cols
    ensures f % cols < g % cols
  {
    assert f == (f / cols) * cols + f % cols;
    assert g == (g / cols) * cols + g % cols;
  }

  lemma PlanCoordAt(center: Point3, rows: int, cols: int, xStep: real, yStep: real, i: int)
    requires ValidDims(rows, cols) && 0 <= i < rows * cols
    ensures var p := Plan(center, rows, cols, xStep, yStep);
      |p| == rows * cols && 0 <= p[i].row < rows && 0 <= p[i].col < cols &&
      p[i] == CellTarget(center, rows, cols, xStep, yStep, p[i].row, p[i].col)
  {
    PlanAt(center, rows, cols, xStep, yStep, i);
  }

  /** Every target is the target of its own cell: the sample centre moved by
      (col - cols // 2) steps along X and (row - rows // 2) steps along Y, at
      the centre's Z (the contract of CellTarget). */
  lemma PlanCoordinates(center: Point3, rows: int, cols: int, xStep: real, yStep: real)
    requires ValidDims(rows, cols)
    ensures var p := Plan(center, rows, cols, xStep, yStep);
      forall i :: 0 <= i < |p| ==>
        0 <= p[i].row < rows && 0 <= p[i].col < cols &&
        p[i] == CellTarget(center, rows, cols, xStep, yStep, p[i].row, p[i].col)
  {
    var p := Plan(center, rows, cols, xStep, yStep);
    PlanCellAt(center, rows, cols, xStep, yStep, 0);
    forall i | 0 <= i < |p|
      ensures 0 <= p[i].row < rows && 0 <= p[i].col < cols &&
              p[i] == CellTarget(center, rows, cols, xStep, yStep, p[i].row, p[i].col)
    {
      PlanCoordAt(center, rows, cols, xStep, yStep, i);
    }
  }

  // ---------------------------------------------------------------------
  // The sample record
  // ---------------------------------------------------------------------

  /** A sample to digitise: its extent, the overlap wanted between images,
      its centre on the stage and the grid planned over it at construction. */
  class Sample {
    const width: real
    const height: real
    const percentOverlap: real
    const center: Point3
    const topLeft: Point3
    const species: string
    const id1: string
    const id2: string
    const notes: string
    const imageWidthMm: real
    const imageHeightMm: real
    const rows: int
    const cols: int
    const xStep: real
    const yStep: real
    const targetsTop: seq<Target>
    const targetsBot: seq<Target>
    const isCore: bool
    const isVertical: bool
    var background: seq<real>
    var backgroundStd: seq<real>
    var coordinates: seq<Point3>
    var focusIndex: seq<int>
    var nvar: seq<real>

    /** The centre is stored rounded to four decimals; the top-left corner is
        computed from the unrounded centre; the grid is planned around the
        rounded centre.  The planner needs at least one row and one column
        (numpy refuses a grid of negative shape). */
    constructor (width: real, height: real, species: string, id1: string, id2: string, notes: string,
                 imageWidthMm: real, imageHeightMm: real, isCore: bool,
                 percentOverlap: real, isVertical: bool, x: real, y: real, z: real)
      requires var g := CalculateGridParams(width, height, imageWidthMm, imageHeightMm, percentOverlap);
        g.rows >= 1 && g.cols >= 1
      ensures this.width == width && this.height == height && this.percentOverlap == percentOverlap
      ensures center == Point3(RoundTo(x, 4), RoundTo(y, 4), RoundTo(z, 4))
      ensures topLeft == Point3(x - width / 2.0, y + height / 2.0, z)
      ensures this.species == species && this.id1 == id1 && this.id2 == id2 && this.notes == notes
      ensures this.imageWidthMm == imageWidthMm && this.imageHeightMm == imageHeightMm
      ensures GridParams(rows, cols, xStep, yStep)
           == CalculateGridParams(width, height, imageWidthMm, imageHeightMm, percentOverlap)
      ensures ValidDims(rows, cols)
      ensures targetsTop == TargetsTop(center, rows, cols, xStep, yStep)
      ensures targetsBot == TargetsBot(center, rows, cols, xStep, yStep)
      ensures background == [] && backgroundStd == [] && coordinates == [] && focusIndex == [] && nvar == []
      ensures this.isCore == isCore && this.isVertical == isVertical
    {
      this.width := width;
      this.height := height;
      this.percentOverlap := percentOverlap;
      var c := Point3(RoundTo(x, 4), RoundTo(y, 4), RoundTo(z, 4));
      center := c;
      topLeft := Point3(x - width / 2.0, y + height / 2.0, z);
      this.species := species;
      this.id1 := id1;
      this.id2 := id2;
      this.notes := notes;
      this.imageWidthMm := imageWidthMm;
      this.imageHeightMm := imageHeightMm;
      var g := CalculateGridParams(width, height, imageWidthMm, imageHeightMm, percentOverlap);
      rows, cols, xStep, yStep := g.rows, g.cols, g.xStep, g.yStep;
      targetsTop := TargetsTop(c, g.rows, g.cols, g.xStep, g.yStep);
      targetsBot := TargetsBot(c, g.rows, g.cols, g.xStep, g.yStep);
      background, backgroundStd, coordinates, focusIndex, nvar := [], [], [], [], [];
      this.isCore := isCore;
      this.isVertical := isVertical;
    }

    /** The stored (rounded) centre */
    function GetCenterLocation(): (c: Point3)
      ensures c == center
    {
      center
    }

    /** The stored top-left corner */
    function GetTopLeftLocation(): (c: Point3)
      ensures c == topLeft
    {
      topLeft
    }
  }
}
