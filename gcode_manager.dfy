/** The serpentine G-code generator: a program that homes the stage, raises
    the lens, then visits the image positions of a rectangular sample row by
    row, reversing the X direction on every row. */
module GCode {
  import opened PyNum

  /** One line of the generated program.  Numbers are kept as values; the
      text form ("G1 X.. Y..") is not modelled. */
  datatype GLine =
    | Home                                     // G28 X Y
    | Rapid(x: real, y: real, z: int)          // G0 X Y Z
    | Move(x: real, y: real, feed: Option<int>) // G1 X Y [F]
    | End                                      // M2

  datatype GCodeError = ZeroDivision

  /** Where the pen is between rows: position and signed X step */
  datatype Pen = Pen(x: real, y: real, dx: real)

  const MaxZ: int := 100

  /** The overlap between neighbouring images, rounded to hundredths */
  function Overlap(imageMm: real, overlapPercentage: real): real
  {
    RoundTo(imageMm * overlapPercentage / 100.0, 2)
  }

  /** Distance between image centres along one axis */
  function StepSize(imageMm: real, overlapPercentage: real): real
  {
    imageMm - Overlap(imageMm, overlapPercentage)
  }

  /** X after j moves of dx from x, each rounded to hundredths */
  function RowEndX(x: real, dx: real, j: nat): real
  {
    if j == 0 then x else RoundTo(RowEndX(x, dx, j - 1) + dx, 2)
  }

  /** The first j moves of a row that starts at (x, y) */
  function RowMoves(x: real, y: real, dx: real, j: nat): (r: seq<GLine>)
    ensures |r| == j
  {
    if j == 0 then [] else RowMoves(x, y, dx, j - 1) + [Move(RowEndX(x, dx, j), y, None)]
  }

  /** Moves within one row: the Y move counts as the row's first image */
  function RowLength(xSteps: int): nat
  {
    if xSteps >= 1 then xSteps - 1 else 0
  }

  /** The pen after k full rows */
  function AfterRows(p0: Pen, yStep: real, xSteps: int, k: nat): Pen
  {
    if k == 0 then p0
    else
      var p := AfterRows(p0, yStep, xSteps, k - 1);
      Pen(RowEndX(p.x, p.dx, RowLength(xSteps)), RoundTo(p.y + yStep, 2), -p.dx)
  }

  /** The lines of row number `row`, starting from pen p: its X moves, then
      the move down to the next row unless it is the last row. */
  function RowCode(p: Pen, yStep: real, xSteps: int, ySteps: int, row: int): seq<GLine>
  {
    var n := RowLength(xSteps);
    var x := RowEndX(p.x, p.dx, n);
    RowMoves(p.x, p.y, p.dx, n)
      + (if row != ySteps - 1 then [Move(x, RoundTo(p.y + yStep, 2), None)] else [])
  }

  /** The lines of the first k rows */
  function RowsCode(p0: Pen, yStep: real, xSteps: int, ySteps: int, k: nat): seq<GLine>
  {
    if k == 0 then []
    else RowsCode(p0, yStep, xSteps, ySteps, k - 1)
         + RowCode(AfterRows(p0, yStep, xSteps, k - 1), yStep, xSteps, ySteps, k - 1)
  }

  /** Finishing row `row` from the pen state the rows before it left */
  lemma RowDone(p0: Pen, yStep: real, xSteps: int, ySteps: int, row: nat)
    ensures var p := AfterRows(p0, yStep, xSteps, row);
      var x := RowEndX(p.x, p.dx, RowLength(xSteps));
      var y := RoundTo(p.y + yStep, 2);
      AfterRows(p0, yStep, xSteps, row + 1) == Pen(x, y, -p.dx) &&
      RowsCode(p0, yStep, xSteps, ySteps, row + 1)
        == RowsCode(p0, yStep, xSteps, ySteps, row) + RowMoves(p.x, p.y, p.dx, RowLength(xSteps))
           + (if row != ySteps - 1 then [Move(x, y, None)] else [])
  {
    var p := AfterRows(p0, yStep, xSteps, row);
    var x := RowEndX(p.x, p.dx, RowLength(xSteps));
    var t := if row != ySteps - 1 then [Move(x, RoundTo(p.y + yStep, 2), None)] else [];
    var a, b := RowsCode(p0, yStep, xSteps, ySteps, row), RowMoves(p.x, p.y, p.dx, RowLength(xSteps));
    assert a + (b + t) == a + b + t;
  }

  function Header(startX: real, startY: real, first: GLine): seq<GLine>
  {
    [Home, Rapid(startX, startY, MaxZ), first]
  }

  /** The whole program for a sample: header, first move with the feed rate,
      the rows, then M2.  A zero step is Python's ZeroDivisionError. */
  function Serpentine(startX: real, startY: real, cookieWidthMm: real, cookieHeightMm: real,
                      imageWidthMm: real, imageHeightMm: real, feedRate: int,
                      overlapPercentage: real): Result<seq<GLine>, GCodeError>
  {
    var xStep := StepSize(imageWidthMm, overlapPercentage);
    var yStep := StepSize(imageHeightMm, overlapPercentage);
    if xStep == 0.0 || yStep == 0.0 then Err(ZeroDivision)
    else
      var xSteps, ySteps := Ceil(cookieWidthMm / xStep), Ceil(cookieHeightMm / yStep);
      var x, y := startX + imageWidthMm / 2.0, startY + imageHeightMm / 2.0;
      var rows := if ySteps >= 0 then ySteps else 0;
      Ok(Header(startX, startY, Move(x, y, Some(feedRate)))
         + RowsCode(Pen(x, y, xStep), yStep, xSteps, ySteps, rows) + [End])
  }

  /** The program when neither step is zero, spelled out */
  lemma SerpentineUnfold(startX: real, startY: real, cookieWidthMm: real, cookieHeightMm: real,
                         imageWidthMm: real, imageHeightMm: real, feedRate: int, overlapPercentage: real)
    requires StepSize(imageWidthMm, overlapPercentage) != 0.0
    requires StepSize(imageHeightMm, overlapPercentage) != 0.0
    ensures var xStep, yStep := StepSize(imageWidthMm, overlapPercentage), StepSize(imageHeightMm, overlapPercentage);
      var ySteps := Ceil(cookieHeightMm / yStep);
      var x, y := startX + imageWidthMm / 2.0, startY + imageHeightMm / 2.0;
      Serpentine(startX, startY, cookieWidthMm, cookieHeightMm, imageWidthMm, imageHeightMm, feedRate, overlapPercentage)
      == Ok(Header(startX, startY, Move(x, y, Some(feedRate)))
            + RowsCode(Pen(x, y, xStep), yStep, Ceil(cookieWidthMm / xStep), ySteps,
                       if ySteps >= 0 then ySteps else 0) + [End])
  {
  }

  /** The X moves of one row (the inner loop): x_steps - 1 moves of dx from
      (x, y), each new X rounded to hundredths, appended to g */
  method AppendRowMoves(g: seq<GLine>, x: real, y: real, dx: real, xSteps: int)
    returns (g': seq<GLine>, x': real)
    ensures g' == g + RowMoves(x, y, dx, RowLength(xSteps))
    ensures x' == RowEndX(x, dx, RowLength(xSteps))
  {
    g', x' := g, x;
    var j := 0;
    while j < xSteps - 1
      invariant 0 <= j <= RowLength(xSteps)
      invariant x' == RowEndX(x, dx, j)
      invariant g' == g + RowMoves(x, y, dx, j)
    {
      x' := RoundTo(x' + dx, 2);
      g' := g' + [Move(x', y, None)];
      j := j + 1;
    }
  }

  // ---------------------------------------------------------------------
  // Properties of the generated program
  // ---------------------------------------------------------------------

  /** Every line of the rows is a G1 move without a feed rate. */
  lemma {:induction false} RowsAreFeedlessMoves(p0: Pen, yStep: real, xSteps: int, ySteps: int, k: nat)
    ensures forall i :: 0 <= i < |RowsCode(p0, yStep, xSteps, ySteps, k)| ==>
      RowsCode(p0, yStep, xSteps, ySteps, k)[i].Move? && RowsCode(p0, yStep, xSteps, ySteps, k)[i].feed == None
    decreases k
  {
    if k > 0 {
      RowsAreFeedlessMoves(p0, yStep, xSteps, ySteps, k - 1);
      var p := AfterRows(p0, yStep, xSteps, k - 1);
      var n := RowLength(xSteps);
      RowMovesFeedless(p.x, p.y, p.dx, n);
      var prev, row := RowsCode(p0, yStep, xSteps, ySteps, k - 1), RowCode(p, yStep, xSteps, ySteps, k - 1);
      var c := prev + row;
      assert c == RowsCode(p0, yStep, xSteps, ySteps, k);
      forall i | 0 <= i < |c|
        ensures c[i].Move? && c[i].feed == None
      {
        if i < |prev| {
          assert c[i] == prev[i];
        } else if i - |prev| < n {
          assert c[i] == RowMoves(p.x, p.y, p.dx, n)[i - |prev|];
        }
      }
    }
  }

  lemma {:induction false} RowMovesFeedless(x: real, y: real, dx: real, j: nat)
    ensures forall i :: 0 <= i < j ==> RowMoves(x, y, dx, j)[i] == Move(RowEndX(x, dx, i + 1), y, None)
    decreases j
  {
    if j > 0 {
      RowMovesFeedless(x, y, dx, j - 1);
      var prev, m := RowMoves(x, y, dx, j - 1), RowMoves(x, y, dx, j);
      assert m == prev + [Move(RowEndX(x, dx, j), y, None)];
      forall i | 0 <= i < |m|
        ensures m[i] == Move(RowEndX(x, dx, i + 1), y, None)
      {
        if i < |prev| {
          assert m[i] == prev[i];
        } else {
          assert i + 1 == j;
        }
      }
    }
  }

  /** The first k rows hold k * x_steps lines (x_steps - 1 moves and one move
      down per row), less the move down after the last row. */
  lemma {:induction false} RowsCodeLength(p0: Pen, yStep: real, xSteps: int, ySteps: int, k: nat)
    requires xSteps >= 1 && 1 <= ySteps && k <= ySteps
    ensures |RowsCode(p0, yStep, xSteps, ySteps, k)| == k * xSteps - (if k == ySteps then 1 else 0)
    decreases k
  {
    if k > 0 {
      RowsCodeLength(p0, yStep, xSteps, ySteps, k - 1);
      var p := AfterRows(p0, yStep, xSteps, k - 1);
      assert |RowMoves(p.x, p.y, p.dx, RowLength(xSteps))| == xSteps - 1;
      assert |RowCode(p, yStep, xSteps, ySteps, k - 1)| == xSteps - (if k == ySteps then 1 else 0);
      assert (k - 1) * xSteps + xSteps == k * xSteps;
    }
  }

  /** The program homes, rises to Z 100 over the start point, moves with the
      feed rate to the centre of the first image, ends with M2, and has one
      line per image plus three; only the first G1 carries a feed rate. */
  lemma ProgramShape(startX: real, startY: real, cookieWidthMm: real, cookieHeightMm: real,
                     imageWidthMm: real, imageHeightMm: real, feedRate: int, overlapPercentage: real)
    requires Serpentine(startX, startY, cookieWidthMm, cookieHeightMm, imageWidthMm, imageHeightMm,
                        feedRate, overlapPercentage).Ok?
    ensures var p := Serpentine(startX, startY, cookieWidthMm, cookieHeightMm, imageWidthMm, imageHeightMm,
                                feedRate, overlapPercentage).value;
      var xSteps := Ceil(cookieWidthMm / StepSize(imageWidthMm, overlapPercentage));
      var ySteps := Ceil(cookieHeightMm / StepSize(imageHeightMm, overlapPercentage));
      |p| >= 4 && p[0] == Home && p[1] == Rapid(startX, startY, 100) &&
      p[2] == Move(startX + imageWidthMm / 2.0, startY + imageHeightMm / 2.0, Some(feedRate)) &&
      p[|p| - 1] == End &&
      (forall i :: 3 <= i < |p| - 1 ==> p[i].Move? && p[i].feed == None) &&
      (xSteps >= 1 && ySteps >= 1 ==> |p| == xSteps * ySteps + 3)
  {
    var xStep, yStep := StepSize(imageWidthMm, overlapPercentage), StepSize(imageHeightMm, overlapPercentage);
    var xSteps, ySteps := Ceil(cookieWidthMm / xStep), Ceil(cookieHeightMm / yStep);
    var x, y := startX + imageWidthMm / 2.0, startY + imageHeightMm / 2.0;
    var rows := if ySteps >= 0 then ySteps else 0;
    var h := Header(startX, startY, Move(x, y, Some(feedRate)));
    var c := RowsCode(Pen(x, y, xStep), yStep, xSteps, ySteps, rows);
    SerpentineUnfold(startX, startY, cookieWidthMm, cookieHeightMm, imageWidthMm, imageHeightMm,
                     feedRate, overlapPercentage);
    var p := h + c + [End];
    RowsAreFeedlessMoves(Pen(x, y, xStep), yStep, xSteps, ySteps, rows);
    forall i | 3 <= i < |p| - 1
      ensures p[i].Move? && p[i].feed == None
    {
      assert p[i] == c[i - 3];
    }
    if xSteps >= 1 && ySteps >= 1 {
      RowsCodeLength(Pen(x, y, xStep), yStep, xSteps, ySteps, rows);
    }
  }

  /** One more step of dx after i steps makes i + 1 steps. */
  lemma AddStep(x: real, dx: real, i: int, j: int, before: real, after: real)
    requires j == i + 1 && before == x + (i as real) * dx && after == before + dx
    ensures after == x + (j as real) * dx
  {
    assert (j as real) * dx == (i as real) * dx + dx;
  }

  /** With the start X and the step on the hundredths grid, rounding never
      bites: every move of a row adds exactly the signed step. */
  lemma {:induction false} RowEndStep(x: real, dx: real, j: nat)
    requires OnGrid(x, 2) && OnGrid(dx, 2)
    ensures OnGrid(RowEndX(x, dx, j), 2)
    ensures RowEndX(x, dx, j + 1) == RowEndX(x, dx, j) + dx
    decreases j
  {
    if j > 0 {
      RowEndStep(x, dx, j - 1);
    }
    RoundSumOnGrid(RowEndX(x, dx, j), dx, 2);
  }

  /** ... so the j-th move of a row is exactly j steps from its start. */
  lemma {:induction false} RowEndExact(x: real, dx: real, j: nat)
    requires OnGrid(x, 2) && OnGrid(dx, 2)
    ensures RowEndX(x, dx, j) == x + (j as real) * dx
    decreases j, 0
  {
    if j > 0 {
      RowEndNext(x, dx, j - 1, j);
    }
  }

  /** The induction step of RowEndExact, from i = j - 1 moves to j */
  lemma {:induction false} RowEndNext(x: real, dx: real, i: nat, j: nat)
    requires OnGrid(x, 2) && OnGrid(dx, 2) && j == i + 1
    ensures RowEndX(x, dx, j) == x + (j as real) * dx
    decreases i, 1
  {
    RowEndExact(x, dx, i);
    RowEndStep(x, dx, i);
    AddStep(x, dx, i, j, RowEndX(x, dx, i), RowEndX(x, dx, j));
  }

  /** Within a row every move keeps Y and carries no feed rate, and with the
      values on the hundredths grid each move is exactly one signed step
      along X from the one before (the first from the row's start). */
  lemma RowDisplacement(x: real, y: real, dx: real, j: nat)
    requires OnGrid(x, 2) && OnGrid(dx, 2)
    ensures forall i :: 0 <= i < j ==>
      RowMoves(x, y, dx, j)[i].Move? && RowMoves(x, y, dx, j)[i].y == y && RowMoves(x, y, dx, j)[i].feed == None
    ensures j > 0 ==> RowMoves(x, y, dx, j)[0].x == x + dx
    ensures forall i :: 0 < i < j ==> RowMoves(x, y, dx, j)[i].x == RowMoves(x, y, dx, j)[i - 1].x + dx
  {
    RowMovesFeedless(x, y, dx, j);
    forall i | 0 <= i < j
      ensures RowMoves(x, y, dx, j)[i].x == RowEndX(x, dx, i) + dx
    {
      RowEndStep(x, dx, i);
    }
  }

  /** The move between rows keeps X and advances Y by the rounded step; none
      follows the last row. */
  lemma RowTransition(p: Pen, yStep: real, xSteps: int, ySteps: int, row: int)
    ensures var c, n := RowCode(p, yStep, xSteps, ySteps, row), RowLength(xSteps);
      (row != ySteps - 1 ==>
         |c| == n + 1 && c[n] == Move(RowEndX(p.x, p.dx, n), RoundTo(p.y + yStep, 2), None)) &&
      (row == ySteps - 1 ==> |c| == n)
  {
  }

  /** The X direction flips after every row: even rows run with the first
      step, odd rows against it; with the start and the steps on the
      hundredths grid, row k starts k steps further along Y. */
  lemma {:induction false} PenAfterRows(p0: Pen, yStep: real, xSteps: int, k: nat)
    ensures AfterRows(p0, yStep, xSteps, k).dx == if k % 2 == 0 then p0.dx else -p0.dx
    ensures OnGrid(p0.y, 2) && OnGrid(yStep, 2) ==>
      AfterRows(p0, yStep, xSteps, k).y == p0.y + (k as real) * yStep &&
      OnGrid(AfterRows(p0, yStep, xSteps, k).y, 2)
    decreases k, 0
  {
    if k > 0 {
      PenAfterNext(p0, yStep, xSteps, k - 1, k);
    }
  }

  /** The induction step of PenAfterRows, from i = k - 1 rows to k */
  lemma {:induction false} PenAfterNext(p0: Pen, yStep: real, xSteps: int, i: nat, k: nat)
    requires k == i + 1
    ensures AfterRows(p0, yStep, xSteps, k).dx == if k % 2 == 0 then p0.dx else -p0.dx
    ensures OnGrid(p0.y, 2) && OnGrid(yStep, 2) ==>
      AfterRows(p0, yStep, xSteps, k).y == p0.y + (k as real) * yStep &&
      OnGrid(AfterRows(p0, yStep, xSteps, k).y, 2)
    decreases i, 1
  {
    PenAfterRows(p0, yStep, xSteps, i);
    var p := AfterRows(p0, yStep, xSteps, i);
    assert AfterRows(p0, yStep, xSteps, k) ==
      Pen(RowEndX(p.x, p.dx, RowLength(xSteps)), RoundTo(p.y + yStep, 2), -p.dx);
    if OnGrid(p0.y, 2) && OnGrid(yStep, 2) {
      RoundSumOnGrid(p.y, yStep, 2);
      AddStep(p0.y, yStep, i, k, p.y, AfterRows(p0, yStep, xSteps, k).y);
    }
  }

  lemma RegroupRow(header: seq<GLine>, done: seq<GLine>, moves: seq<GLine>, turn: seq<GLine>)
    ensures header + done + moves + turn == header + (done + moves + turn)
  {
  }

  class GCodeManager {
    const cookieWidthMm: real
    const cookieHeightMm: real
    const imageWidthMm: real
    const imageHeightMm: real
    const feedRate: int
    const overlapPercentage: real
    const startPoint: (real, real)
    const maxZ: int

    /** Stores the arguments; generates nothing yet. */
    constructor (cookieWidthMm: real, cookieHeightMm: real, imageWidthMm: real, imageHeightMm: real,
                 feedRate: int, overlapPercentage: real, startPoint: (real, real))
      ensures this.cookieWidthMm == cookieWidthMm && this.cookieHeightMm == cookieHeightMm
      ensures this.imageWidthMm == imageWidthMm && this.imageHeightMm == imageHeightMm
      ensures this.feedRate == feedRate && this.overlapPercentage == overlapPercentage
      ensures this.startPoint == startPoint && maxZ == MaxZ
    {
      this.cookieWidthMm := cookieWidthMm;
      this.cookieHeightMm := cookieHeightMm;
      this.imageWidthMm := imageWidthMm;
      this.imageHeightMm := imageHeightMm;
      this.feedRate := feedRate;
      this.overlapPercentage := overlapPercentage;
      this.startPoint := startPoint;
      maxZ := MaxZ;
    }

    method GenerateSerpentine() returns (r: Result<seq<GLine>, GCodeError>)
      requires maxZ == MaxZ
      ensures r == Serpentine(startPoint.0, startPoint.1, cookieWidthMm, cookieHeightMm,
                              imageWidthMm, imageHeightMm, feedRate, overlapPercentage)
    {
      var startX, startY := startPoint.0, startPoint.1;
      var x := startX + imageWidthMm / 2.0;
      var y := startY + imageHeightMm / 2.0;
      var g: seq<GLine> := [];
      g := g + [Home];
      g := g + [Rapid(startX, startY, maxZ)];
      var overlapX := Overlap(imageWidthMm, overlapPercentage);
      var overlapY := Overlap(imageHeightMm, overlapPercentage);
      var xStepSize := imageWidthMm - overlapX;
      var yStepSize := imageHeightMm - overlapY;
      if xStepSize == 0.0 || yStepSize == 0.0 {
        return Err(ZeroDivision);
      }
      var xSteps := Ceil(cookieWidthMm / xStepSize);
      var ySteps := Ceil(cookieHeightMm / yStepSize);
      g := g + [Move(x, y, Some(feedRate))];
      ghost var header := g;
      assert header == Header(startX, startY, Move(x, y, Some(feedRate)));
      ghost var p0 := Pen(x, y, xStepSize);
      ghost var rows := if ySteps >= 0 then ySteps else 0;
      ghost var yStep0 := yStepSize;
      ghost var program := header + RowsCode(p0, yStepSize, xSteps, ySteps, rows) + [End];
      assert Serpentine(startX, startY, cookieWidthMm, cookieHeightMm, imageWidthMm, imageHeightMm,
                        feedRate, overlapPercentage) == Ok(program) by {
        SerpentineUnfold(startX, startY, cookieWidthMm, cookieHeightMm, imageWidthMm, imageHeightMm,
                         feedRate, overlapPercentage);
      }
      var row := 0;
      while row < ySteps
        invariant 0 <= row <= rows
        invariant g == header + RowsCode(p0, yStep0, xSteps, ySteps, row)
        invariant yStepSize == yStep0
        invariant Pen(x, y, xStepSize) == AfterRows(p0, yStep0, xSteps, row)
      {
        ghost var rowStart := x;
        ghost var prefix := g;
        g, x := AppendRowMoves(g, x, y, xStepSize, xSteps);
        ghost var moves := RowMoves(rowStart, y, xStepSize, RowLength(xSteps));
        ghost var done := RowsCode(p0, yStep0, xSteps, ySteps, row);
        RowDone(p0, yStep0, xSteps, ySteps, row);
        y := RoundTo(y + yStepSize, 2);
        ghost var turn: seq<GLine> := if row != ySteps - 1 then [Move(x, y, None)] else [];
        assert RowsCode(p0, yStep0, xSteps, ySteps, row + 1) == done + moves + turn;
        if row != ySteps - 1 {
          g := g + [Move(x, y, None)];
        }
        assert g == prefix + moves + turn;
        RegroupRow(header, done, moves, turn);
        xStepSize := -xStepSize;
        row := row + 1;
      }
      assert row == rows;
      g := g + [End];
      assert g == program;
      r := Ok(g);
    }
  }
}
