# TreeRings gantry photography core, in Dafny

TreeRings photographs tree-ring samples ("cookies" and cores) with a camera
carried by a three-axis GRBL gantry. The camera visits a grid of overlapping
positions over the sample. At each position it takes a Z stack of frames,
and a focus measure picks the sharpest frame. This project models the
logic at the centre of that pipeline and proves what it promises.

- **Grid planner** (`SamplePlan`, `sample.dfy`). Computes the step sizes
  and the odd row and column counts. Builds the table of targets centred on
  the sample, splits it at the centre cell, and re-sorts each half into
  serpentine order. The numpy in-place re-sort is modelled on values.
- **G-code generator** (`GCode`, `gcode_manager.dfy`). Produces the
  serpentine program: a header, one feed-setting move, the row moves with
  the X direction flipping on each row, then `M2`. G-code lines are values.
  Their text form is not modelled.
- **Capture controller** (`Capture`, `controller.dfy`). Derives the grid from
  the last cookie and drives the serpentine capture. Provides both Z
  bracketing routines and the feed-rate modes. The stage jogs, the camera's
  saves and the focus-queue pushes go to one append-only event log, so each
  routine is a trace whose shape is proved.
- **Cookie record** (`Cookies`, `cookie.dfy`).
- **GRBL command layer** (`GantryControl`, `gantry.dfy`). Jog and realtime
  commands are built from the feed-rate fields. Each is written to a serial
  port, modelled as a log of written lines plus a supplied reply stream. The
  layer also keeps the `connected` flag derived from the replies.
- **PID controller** (`Pid`, `pid.dfy`). Three fields of state. The clock
  reading is a parameter of each update.
- **Best-image selectors** (`Selection`, `Focus`, `LaplacianTest`,
  `FocusStack`, `best_image.dfy`) and the **autofocus sweep** (`Autofocus`,
  `autofocus.dfy`). Each is one running argmax: strict `>`, starting from a
  best score of 0.0. The image focus measure is an uninterpreted function.
- **Band tiling** (`Alignment`, `alignment.dfy`). Cuts a horizontal band of
  an image into tiles.
- **Python numerics** (`PyNum`, `py_num.dfy`). Covers `math.ceil`,
  `math.floor`, `int()`, round-half-even `round(v, k)`, `str(int)`,
  `str.strip` (over the whole `str.isspace` set) and slicing with negative
  indices. Also holds Option and
  Result.

Millimetres are `real`. Python's `round(v, k)` is exact round-half-even on
reals. Binary floating point is not modelled.

The planner's docstring promises row and column counts that are always odd
(`code/sample.py:58-66`). Two details of its code shape the model:

- The overlap is rounded to thousandths before it is subtracted from the
  image size (`code/sample.py:67-68`).
- An axis whose step is zero gets exactly one cell (`code/sample.py:73-81`).

## Model

| member | source | states |
|---|---|---|
| SamplePlan.CellCount | code/sample.py:73-88 | the count on an axis is always odd |
| SamplePlan.CellCountLeastOddCover | code/sample.py:73-88 | with a positive step, the count is the least odd n whose n steps span the extent: n*step >= extent and (n-2)*step < extent |
| SamplePlan.StepSizeNonNegative | code/sample.py:67-71 | the step (image size minus its overlap rounded to thousandths) is never negative for a non-negative image size with at most three decimals and an overlap of at most 100 percent |
| SamplePlan.GridParamsOddAndPositive | code/sample.py:58-90 | for a sample of non-negative size, image sizes that are non-negative with at most three decimals, and an overlap of at most 100 percent, rows and cols are odd and at least 1 |
| SamplePlan.AxisOffsetAt | code/sample.py:103-113 | the reversed negated cumulative steps, 0, then the cumulative steps put cell j at (j - half) steps from the centre |
| SamplePlan.CellTarget | code/sample.py:99-131 | cell (r, c) gets X = cx + (c - cols//2)*x_step, Y = cy + (r - rows//2)*y_step, Z = cz and row/col (r, c); the middle row and column sit on the centre |
| SamplePlan.HalvesStartAtCenter | code/sample.py:134-139 | the top half has (rows*cols+1)/2 targets and the bottom half (rows*cols-1)/2; the first top target is cell (rows//2, cols//2) at the sample centre |
| SamplePlan.TopFirstIsCentre | code/sample.py:134-138 | the first top target is the centre cell's target |
| SamplePlan.ResortOrder | code/sample.py:141-168 | the masked re-sort keeps every target's row, mirrors the column of exactly the rows whose parity differs from the middle row's, and leaves the others untouched; within one row of the top half the columns ascend exactly when the row was re-sorted, and within one row of the bottom half they descend exactly when it was |
| SamplePlan.SerpentineHalves | code/sample.py:141-169 | consecutive targets of each half are one row or one column apart; rows never increase through the top half and never decrease through the bottom half |
| SamplePlan.PlanCoversGridOnce | code/sample.py:134-171 | the two halves together visit every cell of rows x cols exactly once |
| SamplePlan.PlanCoordinates | code/sample.py:99-171 | every planned target carries the coordinates of its own cell |
| SamplePlan.Sample.constructor | code/sample.py:28-56 | the centre is stored rounded to 4 decimals; the top-left is (x - width/2, y + height/2, z); the grid and both halves are planned around the rounded centre; the lists start empty |
| SamplePlan.Sample.GetCenterLocation | code/sample.py:173-179 | returns the stored centre unchanged |
| SamplePlan.Sample.GetTopLeftLocation | code/sample.py:181-187 | returns the stored top-left corner unchanged |
| GCode.GCodeManager.constructor | code/GCodeManager.py:7-15 | stores every argument and sets max_z to 100; no code is generated |
| GCode.GCodeManager.GenerateSerpentine | code/GCodeManager.py:17-73 | the loop builds exactly the serpentine program, or the ZeroDivisionError of a zero step |
| GCode.AppendRowMoves | code/GCodeManager.py:57-59 | the inner loop appends x_steps - 1 moves of the row and leaves X where the last one went |
| GCode.ProgramShape | code/GCodeManager.py:30-71 | the program starts G28, G0 X<start_x> Y<start_y> Z100, G1 to start + image/2 with F<feed_rate>; it ends with M2; every other line is a G1 without a feed; with positive counts it has x_steps*y_steps + 3 lines |
| GCode.RowsCodeLength | code/GCodeManager.py:54-68 | k rows hold k*x_steps lines, less the move down after the last row |
| GCode.RowsAreFeedlessMoves | code/GCodeManager.py:54-68 | every line the row loops emit is a G1 without a feed |
| GCode.RowMovesFeedless | code/GCodeManager.py:57-59 | move i of a row goes to the X after i+1 rounded steps, at the row's Y |
| GCode.RowEndExact | code/GCodeManager.py:57-58 | with start and step on the hundredths grid, rounding never bites: after j moves X is exactly x + j*dx |
| GCode.RowDisplacement | code/GCodeManager.py:57-59 | within a row each move keeps Y and has no feed; with X and the step on the hundredths grid, each changes X by exactly the current signed step |
| GCode.RowTransition | code/GCodeManager.py:62-66 | between rows the move keeps X and sets Y to the rounded next row; no such move follows the last row |
| GCode.PenAfterRows | code/GCodeManager.py:62-68 | the X step's sign flips after every row; with Y and y_step on the hundredths grid, row k starts exactly k*y_step further along Y |
| Capture.FramePathInjective | code/focus_testng/controller.py:140-149 | distinct (row, col, i) give distinct `frame_{row}_{col}_{i}.tiff` paths, so no capture overwrites another |
| Capture.Controller.constructor | code/focus_testng/controller.py:16-28 | no cookies, the given image size, directory ".", a new gantry with its default feed rates, an empty event log |
| Capture.Controller.SetImageHeightMm | code/focus_testng/controller.py:36-37 | sets the image height and nothing else |
| Capture.Controller.SetImageWidthMm | code/focus_testng/controller.py:39-40 | sets the image width and nothing else |
| Capture.Controller.SetDirectory | code/focus_testng/controller.py:42-43 | sets the directory and nothing else |
| Capture.Controller.CalculateGrid | code/focus_testng/controller.py:67-88 | fails with no cookie; otherwise the grid of the last cookie only |
| Capture.GridForLeastCover | code/focus_testng/controller.py:67-88 | with positive steps, rows and cols are ceil(h/y_step) and ceil(w/x_step): they cover the cookie, and one fewer does not; no odd-forcing |
| Capture.GridForVersusPlanner | code/focus_testng/controller.py:67-88 | the controller's steps equal the planner's, and its counts are the planner's except that the planner bumps an even count to odd |
| Capture.Controller.AddCookieSample | code/focus_testng/controller.py:240-243 | appends exactly one new cookie of the given size and overlap, keeping earlier cookies |
| Capture.Controller.SetFeedRate | code/focus_testng/controller.py:221-229 | mode 1 sets xy/z 200/15, mode 2 sets 500/75, any other mode changes neither; nothing else on the gantry changes |
| Capture.Controller.JogX | code/focus_testng/controller.py:212-213 | logs one X jog of the given distance |
| Capture.Controller.JogY | code/focus_testng/controller.py:215-216 | logs one Y jog of the given distance |
| Capture.Controller.JogZ | code/focus_testng/controller.py:218-219 | logs one Z jog of the given distance |
| Capture.Controller.CaptureImagesMultipleDistancesNew | code/focus_testng/controller.py:158-205 | fails exactly when feed rate or image count is zero, moving nothing; otherwise it logs the three-jog stack trace and returns the image_count paths in index order |
| Capture.StackTraceShape | code/focus_testng/controller.py:174-198 | a stack jogs Z exactly r/2+buf, -(r+2*buf), r/2+buf, which sum to 0; it moves neither X nor Y, pushes nothing and saves its frames in order |
| Capture.Controller.SaveFrames | code/focus_testng/controller.py:189-192 | saves frames 0..n-1 of the cell in order and returns their paths |
| Capture.SaveEventsSummary | code/focus_testng/controller.py:189-192 | saving frames moves nothing and pushes nothing |
| Capture.Controller.TakeLegacyStack | code/focus_testng/controller.py:134-156 | jogs -z_offset, saves frame 0, then for each later frame jogs one step up and saves it, then jogs -z_offset again |
| Capture.Controller.CaptureImagesMultipleDistancesAsWritten | code/focus_testng/controller.py:128-156 | as written: "MUST BE ODD" with nothing logged exactly when n // 2 == 0; otherwise the legacy stack of max(n, 1) paths |
| Capture.Controller.CaptureImagesMultipleDistances | code/focus_testng/controller.py:128-156 | with the intended guard: "MUST BE ODD" exactly when n is not a positive odd number; otherwise the legacy stack of n paths in order |
| Capture.GuardAsWritten | code/focus_testng/controller.py:131-132 | the guard as written rejects exactly the counts 0 and 1 |
| Capture.LegacyStackShape | code/focus_testng/controller.py:137-154 | Z jogs are -z_offset, (n-1) steps up, -z_offset; no X or Y move; frames saved in order |
| Capture.LegacyNetZ | code/focus_testng/controller.py:137-154 | the legacy stack's net Z displacement is (n-1)*step - 2*z_offset |
| Capture.HalfFloor | code/focus_testng/controller.py:134 | floor(n/2) is n // 2 |
| Capture.StackOffsetExact | code/focus_testng/controller.py:134 | for a step with at most three decimals the rounded offset is exactly (n // 2)*step |
| Capture.EvenCountDriftsAsWritten | code/focus_testng/controller.py:131-154 | as written, n = 2 is accepted, though not odd, and leaves the camera one step below where it started |
| Capture.StackReturnsHome | code/focus_testng/controller.py:131-154 | for any accepted (odd) count the legacy stack's net Z displacement is 0 |
| Capture.Controller.CaptureAndStep | code/focus_testng/controller.py:97-110 | one cell of a row: its 20-frame stack, the X jog in the row's direction, then the push of its paths |
| Capture.Controller.CaptureRowSteps | code/focus_testng/controller.py:97-110 | the first cols - 1 cells of a row, each followed by its jog and push |
| Capture.Controller.FinishRow | code/focus_testng/controller.py:112-124 | the last cell of the row (column 0 on odd rows, cols-1 on even rows), its push, then jog_y(-y_dist) |
| Capture.Controller.CaptureRow | code/focus_testng/controller.py:96-125 | one whole row of the traversal |
| Capture.Controller.CaptureRows | code/focus_testng/controller.py:95-125 | the rows one after another |
| Capture.Controller.CaptureGridPhotos | code/focus_testng/controller.py:90-126 | sets slow feed (xy 200, z 15), logs all rows, then the sentinel; the fast feed rates, the port, the flag and the gantry's sample lists are kept |
| Capture.RowTraceSummary | code/focus_testng/controller.py:96-124 | a row makes cols-1 X jogs of +x_dist (even row) or -x_dist (odd row), one Y jog of -y_dist as its last event, Z moves that cancel, and pushes one batch per cell in serpentine order |
| Capture.RowsMoves | code/focus_testng/controller.py:95-125 | after k rows: one Y jog of -y_dist per row, net Z zero, and X at the end the last row finished on |
| Capture.RowsPuts | code/focus_testng/controller.py:95-125 | k rows push the rows' batches in order |
| Capture.GridBatchesAt | code/focus_testng/controller.py:95-122 | batch i is the stack of row i // cols at the column visited (i % cols)-th in that row: ascending on even rows, descending on odd rows |
| Capture.CaptureColInvolution | code/focus_testng/controller.py:99-120 | the serpentine column order of a row is a permutation of 0..cols-1 |
| Capture.GridVisitsEveryCell | code/focus_testng/controller.py:95-122 | every cell of rows x cols has its batch pushed |
| Capture.GridBatchesDistinct | code/focus_testng/controller.py:95-122 | when distinct cells have distinct stacks, no batch is pushed twice |
| Capture.GridFilesInjective | code/focus_testng/controller.py:101-120 | the stacks the grid capture takes at distinct cells differ |
| Capture.GridTraceSummary | code/focus_testng/controller.py:93-126 | the grid capture pushes exactly rows*cols batches followed by a single sentinel, jogs Y by -y_dist once per row, nets zero Z, and ends X where the rows leave it |
| Cookies.Cookie.constructor | code/cookie.py:2-6 | stores width, height and overlap; start point (None, None) |
| Cookies.Cookie.SetLocation | code/cookie.py:8-9 | sets the start point to the given corner; size and overlap are constants |
| GantryControl.CommandText | code/gantry.py:33-105 | a jog line starts "$J=G91 G21 " and then the axis letter; a realtime command is its fixed text |
| GantryControl.Gantry.constructor | code/gantry.py:8-24 | feed rates z 15, xy 200, fast z 100, fast xy 500; empty sample lists; no port; connection flag unset |
| GantryControl.Gantry.SendCommand | code/gantry.py:26-31 | writes the command as one line, reads exactly one reply line and returns it |
| GantryControl.Gantry.JogX | code/gantry.py:33-40 | sends a jog of X by dist at feed_rate_xy |
| GantryControl.Gantry.JogY | code/gantry.py:42-49 | sends a jog of Y by dist at feed_rate_xy |
| GantryControl.Gantry.JogZ | code/gantry.py:51-58 | sends a jog of Z by dist at feed_rate_z |
| GantryControl.Gantry.JogFastX | code/gantry.py:60-68 | sends a jog of X at feed_rate_fast_xy |
| GantryControl.Gantry.JogFastY | code/gantry.py:70-78 | sends a jog of Y at feed_rate_fast_xy |
| GantryControl.Gantry.JogFastZ | code/gantry.py:80-88 | sends a jog of Z at feed_rate_fast_z |
| GantryControl.Gantry.JogCancel | code/gantry.py:90-97 | sends exactly "\x85" |
| GantryControl.Gantry.Pause | code/gantry.py:99-101 | sends exactly "M0" |
| GantryControl.Gantry.Resume | code/gantry.py:103-105 | sends exactly "~" |
| GantryControl.Gantry.HomingSequenceAsWritten | code/gantry.py:107-121 | as written: sends "$H" then "?", in that order; the flag is whether the last two characters of the second, unstripped reply are "ok"; the feed rates and sample lists are kept |
| GantryControl.Gantry.HomingSequence | code/gantry.py:107-110 | corrected: sends "$H" then "?", in that order; the flag follows the second reply less its line terminator; the feed rates and sample lists are kept |
| GantryControl.Gantry.QueryStateAsWritten | code/gantry.py:112-121 | as written: sends "?", reads one reply, and sets the flag to whether the last two characters of the unstripped reply are "ok"; the feed rates and sample lists are kept |
| GantryControl.Gantry.QueryState | code/gantry.py:112-121 | corrected: sends "?", reads one reply, and sets the flag to whether the reply, less its line terminator, ends in "ok"; the feed rates and sample lists are kept |
| GantryControl.Gantry.IsConnected | code/gantry.py:123-127 | returns the flag, and fails exactly when neither query has set it |
| GantryControl.Gantry.SerialConnectPort | code/gantry.py:132-144 | writes the wake bytes, reads one reply, sets the flag to whether the stripped reply is "ok"; the feed rates and sample lists are kept |
| GantryControl.TerminatedReplyNeverOk | code/gantry.py:116-118 | as written, no reply that keeps its "\n" is ever "ok" |
| GantryControl.OkLineRejectedAsWritten | code/gantry.py:116-118 | GRBL's "ok\r\n" is rejected as written and accepted by the corrected test |
| GantryControl.ReplyOkIgnoresTerminator | code/gantry.py:116-118 | the corrected test on a line with "\r\n" agrees with the as-written test on the bare line |
| GantryControl.WakeOkImpliesReplyOk | code/gantry.py:138-144 | a wake reply that connects also passes the status-query test |
| Pid.AsynchronousPID.constructor | code/PID.py:5-12 | stores the gains and setpoint; zero integral and previous error; the clock at construction |
| Pid.AsynchronousPID.Update | code/PID.py:14-37 | the output and the new state are one Step of the controller; the gains are constants |
| Pid.Error | code/PID.py:17 | measured + error == setpoint; the error is zero exactly at the setpoint |
| Pid.Derivative | code/PID.py:27 | zero when dt <= 0; otherwise derivative*dt is the change in error |
| Pid.StepTerms | code/PID.py:16-35 | the integral grows by exactly error*dt; the output is Kp*e + Ki*integral + Kd*derivative on the new integral; error and clock are remembered |
| Pid.RunIntegral | code/PID.py:14-37 | after any sequence of updates the integral has grown by the time-weighted error sum, and the last clock reading is kept |
| Pid.RunRemembersLastError | code/PID.py:34 | after updates the previous error is the last reading's error |
| Pid.ConstantErrorArea | code/PID.py:22-23 | under a constant measurement the integral grows by that error times the total elapsed time |
| Pid.AtSetpoint | code/PID.py:17-31 | at the setpoint the integral is kept, and with no previous error the output is Ki*integral |
| Pid.ProportionalOnly | code/PID.py:19-31 | with Ki = Kd = 0 the output is Kp*error |
| Pid.SameTimeNoDerivative | code/PID.py:16-28 | an update at an unchanged clock adds nothing to the integral and has no derivative term |
| Pid.AdjustFocus | code/PID.py:39-42 | the movement is zero exactly when the signal or the scale is zero; with a positive scale it has the signal's sign |
| Pid.AdjustFocusLinear | code/PID.py:39-42 | the movement is linear in the control signal |
| Selection.BestBy | code/focus.py:30-40 | empty exactly when no score is positive; otherwise the earliest item with the highest score |
| Selection.FirstBestUnique | code/focus.py:36 | strict > makes the earliest best item unique |
| Selection.FirstBestExists | code/focus.py:30-40 | an earliest best item exists whenever some score is positive |
| Focus.BestFocusedImage | code/focus.py:30-40 | [] when the list is empty or no Laplacian variance (window 5, blur 5) is positive; otherwise an input image scoring at least every other, the earliest on ties |
| LaplacianTest.BestFocusedImage | code/laplacian_test.py:29-40 | scored on hsl_mask(image) but returns the unmasked input; [] when no score is positive; otherwise the earliest maximal image |
| FocusStack.BestLaplacian | code/focus_testng/focus_stack.py:40-50 | [] when no score is positive; otherwise an input image with maximal score, the first on ties |
| Autofocus.Steps | code/autofocus.py:16 | the pass count n satisfies n - 2 < (end-start)/step <= n - 1, i.e. ceil((end-start)/step) + 1 |
| Autofocus.GetBestFocus | code/autofocus.py:12-30 | ZeroDivisionError exactly for a zero step; 0.0 when no pass scores above 0; otherwise start + i*step for the earliest pass i with the highest score |
| Autofocus.SweepCoversSpan | code/autofocus.py:16-19 | sweeping up a non-empty span, the last pass reaches the end height and the one before falls short |
| Autofocus.ExactSweepEndsAtEnd | code/autofocus.py:16-19 | when the step divides the span k times, there are k+1 passes and the last lands on the end |
| Alignment.Break | code/alignment.py:32 | every break lies in 0..w, the first is 0 and the last is w |
| Alignment.Linspace | code/alignment.py:32 | n_col + 1 breaks |
| Alignment.CenterBandGrid | code/alignment.py:19-39 | fails exactly when n_col < -1; otherwise the band bounds lie in 0..h, the breaks are the linspace, there are max(n_col, 0) tiles, and tile c is image[y_start:y_end, x_breaks[c]:x_breaks[c+1]] |
| Alignment.BreaksNondecreasing | code/alignment.py:32 | the breaks never go back |
| Alignment.BandInsideImage | code/alignment.py:26-30 | with a non-negative fraction, 0 <= y_start <= y_end <= h and the band is at most 2*band_half tall |
| Alignment.BandCentred | code/alignment.py:26-30 | a band that fits is centred on h // 2, band_half rows each side |
| Alignment.TileContents | code/alignment.py:36 | inside the image a tile is the rectangle of its bounds, pixel for pixel |
| Alignment.LinspaceAdvances | code/alignment.py:32 | for n_col >= 1 the breaks run from 0 up to w without going back |
| Alignment.TilesCoverBand | code/alignment.py:32-37 | laid side by side, the tiles rebuild every row of the band entire |

## Left out

- Sleeps (`time.sleep`) are not modelled, including the ValueError a negative duration raises. Neither are log output, `print` or `datetime` names.
- Python float representation is not modelled. G-code lines and GRBL jog distances are values, not text. `GantryControl.CommandText` takes the distance's text form as a parameter.
- Binary floating point and NaN are not modelled. Millimetres are exact reals, and `round(v, k)` is exact round-half-even.
- `capture_cookie` (code/focus_testng/controller.py:47-65) is not modelled: its threads, its queue joins and its directory creation are concurrency and filesystem effects. The queue is the sequence of `Put` events.
- `quit` and `cb_capture_image` of the controller are not modelled: they only stop devices or save one timestamped frame.
- The camera is not modelled. A saved frame is a `Save(path)` event.
- The controller's `jog_x/y/z` call `jog_relative_*` on the gantry, and code/gantry.py defines no such methods. The model records the jogs as events in the controller's log rather than as GRBL lines.
- Capture.Controller.CaptureGridPhotos: the `pause` argument only sets sleep lengths, so it is not modelled. `z_steps` is unused by the source.
- SamplePlan.Sample.constructor: requires at least one row and one column. For a negative sample size numpy raises ValueError on the negative grid shape, and that error path is not modelled. The directory creation (code/sample.py:41-44) is left out as a filesystem effect.
- SamplePlan.GridParamsOddAndPositive: assumes image sizes with at most three decimals and an overlap of at most 100 percent. Outside that, the rounded overlap can exceed the image size and the step turns negative. A count can then be negative, though it is still odd, as SamplePlan.CellCount states for every step.
- SamplePlan: `calculate_image_locations` works in place on numpy arrays. The model computes the two halves as sequences, so aliasing between the halves and the grid is not captured.
- GantryControl.Gantry.SendCommand: requires an open port, as every command method does. With no port the source raises AttributeError, which is not modelled. pyserial's `flushInput`, the 2 s wake sleep and `serial_disconnect_port` are left out.
- Pid: `time.time()` is the `now` and `currentTime` parameter. The simulation and the placeholder motor functions (code/PID.py:44-105) are not modelled.
- Focus.BestFocusedImage, LaplacianTest.BestFocusedImage and FocusStack.BestLaplacian: OpenCV's Laplacian variance and `hsl_mask` are uninterpreted functions. "Returns []" is `None`.
- Autofocus.GetBestFocus: the camera capture, the median blur and the sleeps are not modelled. The score of each pass is a parameter, and the stage is not moved.
- Default argument values (overlap 20, setpoint 0, port "/dev/ttyUSB0", start point (0, 0)) are passed explicitly. The first two are the constants `DefaultPercentOverlap` and `DefaultSetpoint`.
- Alignment: only `center_band_grid` is modelled. `core_alignment` and the script body of code/alignment.py are not part of this model.

## Findings

| source | as written | input that shows it | evidently intended | confidence | as-written member | corrected member |
|---|---|---|---|---|---|---|
| code/focus_testng/controller.py:131 | `if image_count_odd // 2 == 0` rejects only the counts 0 and 1 | `image_count_odd = 2` is accepted: z_offset is one step, the camera jogs -step, +step, -step and ends one step below where it started | reject every count that is not a positive odd number (`% 2`), so the stack returns to its start | not executed | Capture.Controller.CaptureImagesMultipleDistancesAsWritten, Capture.EvenCountDriftsAsWritten | Capture.Controller.CaptureImagesMultipleDistances, Capture.StackReturnsHome |
| code/gantry.py:118 | `res_str[-2:] == "ok"` on the line as `readline` returns it, with its terminator | GRBL's reply `"ok\r\n"` sets `_connected` to False | compare the reply with its line terminator stripped, as `serial_connect_port` does at line 141 | not executed | GantryControl.Gantry.QueryStateAsWritten, GantryControl.Gantry.HomingSequenceAsWritten, GantryControl.OkLineRejectedAsWritten | GantryControl.Gantry.QueryState, GantryControl.Gantry.HomingSequence, GantryControl.ReplyOkIgnoresTerminator |
