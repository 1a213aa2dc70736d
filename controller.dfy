/** The capture controller: the grid it derives from the last cookie, the
    serpentine traversal that jogs the stage and captures a Z stack at each
    cell, the two Z-bracketing routines, and the feed-rate modes.  The
    stage, the camera and the focus queue are one append-only log of
    events, so a traversal is a trace whose shape can be stated. */
module Capture {
  import opened PyNum
  import opened Cookies
  import opened GantryControl
  import SamplePlan

  /** An item pushed on the focus queue: a stack's file names, or the
      end-of-capture sentinel (the list [-1] in the source) */
  datatype Item = Batch(paths: seq<string>) | Sentinel

  datatype Event =
    | Move(axis: Axis, dist: real)  // a relative jog of the stage
    | Save(path: string)           // the camera writes a frame to `path`
    | Put(item: Item)              // an item is pushed on the focus queue

  datatype ControllerError = NoCookie | ZeroDivision

  /** (rows, cols, row step, column step), in the order the source returns them */
  datatype Grid = Grid(rows: int, cols: int, yStep: real, xStep: real)

  /** What the legacy bracketing routine returns */
  datatype StackResult = MustBeOdd | Files(paths: seq<string>)

  // ---------------------------------------------------------------------
  // Frame file names
  // ---------------------------------------------------------------------

  /** "<row>_<col>_<i>.tiff" */
  function FrameName(row: int, col: int, i: int): string
  {
    IntToString(row) + "_" + (IntToString(col) + "_" + (IntToString(i) + ".tiff"))
  }

  /** "<dir>/frame_<row>_<col>_<i>.tiff" */
  function FramePath(dir: string, row: int, col: int, i: int): string
  {
    dir + "/frame_" + FrameName(row, col, i)
  }

  /** The names of frames 0 .. n-1 of the stack at (row, col) */
  function FramePaths(dir: string, row: int, col: int, n: int): (r: seq<string>)
    ensures |r| == Max(n, 0)
  {
    seq(Max(n, 0), i => FramePath(dir, row, col, i))
  }

  /** One more frame at the end of a stack */
  lemma FramePathsSnoc(dir: string, row: int, col: int, n: int)
    requires n >= 0
    ensures FramePaths(dir, row, col, n) + [FramePath(dir, row, col, n)] == FramePaths(dir, row, col, n + 1)
  {
    var front := FramePaths(dir, row, col, n);
    var a, b := front + [FramePath(dir, row, col, n)], FramePaths(dir, row, col, n + 1);
    forall i | 0 <= i <= n
      ensures a[i] == b[i]
    {
      if i < n {
        assert a[i] == front[i];
      }
    }
  }

  lemma SeparatorAt(sep: char, a: string, b: string)
    ensures (a + ([sep] + b))[|a|] == sep
    ensures forall k :: 0 <= k < |a| ==> (a + ([sep] + b))[k] == a[k]
  {
  }

  /** A separator that occurs in neither head splits a string one way only. */
  lemma SplitAt(sep: char, a: string, b: string, a': string, b': string)
    requires sep !in a && sep !in a'
    requires a + ([sep] + b) == a' + ([sep] + b')
    ensures a == a' && b == b'
  {
    var s := a + ([sep] + b);
    SeparatorAt(sep, a, b);
    SeparatorAt(sep, a', b');
    if |a| < |a'| {
      assert false;
    } else if |a'| < |a| {
      assert false;
    }
    assert a == s[..|a|] == a';
    assert b == s[|a| + 1..] == b';
  }

  /** "<a>_<b>_<c>.tiff" determines a, b and c when a and b contain no '_'
      and c no '.' */
  lemma NameFieldsUnique(a: string, b: string, c: string, a': string, b': string, c': string)
    requires '_' !in a && '_' !in a' && '_' !in b && '_' !in b' && '.' !in c && '.' !in c'
    requires a + "_" + (b + "_" + (c + ".tiff")) == a' + "_" + (b' + "_" + (c' + ".tiff"))
    ensures a == a' && b == b' && c == c'
  {
    var tail, tail' := b + "_" + (c + ".tiff"), b' + "_" + (c' + ".tiff");
    assert a + "_" + tail == a + (['_'] + tail);
    assert a' + "_" + tail' == a' + (['_'] + tail');
    SplitAt('_', a, tail, a', tail');
    assert b + "_" + (c + ".tiff") == b + (['_'] + (c + ".tiff"));
    assert b' + "_" + (c' + ".tiff") == b' + (['_'] + (c' + ".tiff"));
    SplitAt('_', b, c + ".tiff", b', c' + ".tiff");
    assert c + ".tiff" == c + (['.'] + "tiff");
    assert c' + ".tiff" == c' + (['.'] + "tiff");
    SplitAt('.', c, "tiff", c', "tiff");
  }

  lemma FrameNameInjective(r: int, c: int, i: int, r': int, c': int, i': int)
    requires FrameName(r, c, i) == FrameName(r', c', i')
    ensures r == r' && c == c' && i == i'
  {
    IntToStringNoSeparator(r); IntToStringNoSeparator(r');
    IntToStringNoSeparator(c); IntToStringNoSeparator(c');
    IntToStringNoSeparator(i); IntToStringNoSeparator(i');
    NameFieldsUnique(IntToString(r), IntToString(c), IntToString(i),
                     IntToString(r'), IntToString(c'), IntToString(i'));
    IntToStringInjective(r, r');
    IntToStringInjective(c, c');
    IntToStringInjective(i, i');
  }

  /** Distinct frames of distinct cells get distinct file names, so no
      capture overwrites another. */
  lemma FramePathInjective(dir: string, r: int, c: int, i: int, r': int, c': int, i': int)
    requires FramePath(dir, r, c, i) == FramePath(dir, r', c', i')
    ensures r == r' && c == c' && i == i'
  {
    var p := dir + "/frame_";
    assert FramePath(dir, r, c, i)[|p|..] == FrameName(r, c, i);
    assert FramePath(dir, r', c', i')[|p|..] == FrameName(r', c', i');
    FrameNameInjective(r, c, i, r', c', i');
  }

  // ---------------------------------------------------------------------
  // Projections of a trace
  // ---------------------------------------------------------------------

  function Sum(s: seq<real>): real
  {
    if s == [] then 0.0 else Sum(s[..|s| - 1]) + s[|s| - 1]
  }

  /** What a trace does, by kind of event and in order within each kind:
      the X, Y and Z jog distances, the items pushed on the queue and the
      paths saved */
  datatype Summary = Summary(xs: seq<real>, ys: seq<real>, zs: seq<real>, puts: seq<Item>, saved: seq<string>)

  function Combine(p: Summary, q: Summary): Summary
  {
    Summary(p.xs + q.xs, p.ys + q.ys, p.zs + q.zs, p.puts + q.puts, p.saved + q.saved)
  }

  const NoEffect: Summary := Summary([], [], [], [], [])

  /** The summary extended by one event: only the field for its kind grows */
  function AddEvent(s: Summary, e: Event): Summary
  {
    match e
    case Move(X, d) => s.(xs := s.xs + [d])
    case Move(Y, d) => s.(ys := s.ys + [d])
    case Move(Z, d) => s.(zs := s.zs + [d])
    case Put(i) => s.(puts := s.puts + [i])
    case Save(p) => s.(saved := s.saved + [p])
  }

  function Summarize(t: seq<Event>): Summary
  {
    if t == [] then NoEffect else AddEvent(Summarize(t[..|t| - 1]), t[|t| - 1])
  }

  lemma SummarizeSnoc(t: seq<Event>, e: Event)
    ensures Summarize(t + [e]) == AddEvent(Summarize(t), e)
  {
    assert (t + [e])[..|t|] == t;
  }

  lemma SummarizeOne(e: Event)
    ensures Summarize([e]) == AddEvent(NoEffect, e)
  {
    assert [e][..0] == [];
  }

  lemma CombineAdd(p: Summary, q: Summary, e: Event)
    ensures AddEvent(Combine(p, q), e) == Combine(p, AddEvent(q, e))
  {
    match e
    case Move(X, d) => assert p.xs + q.xs + [d] == p.xs + (q.xs + [d]);
    case Move(Y, d) => assert p.ys + q.ys + [d] == p.ys + (q.ys + [d]);
    case Move(Z, d) => assert p.zs + q.zs + [d] == p.zs + (q.zs + [d]);
    case Put(i) => assert p.puts + q.puts + [i] == p.puts + (q.puts + [i]);
    case Save(f) => assert p.saved + q.saved + [f] == p.saved + (q.saved + [f]);
  }

  /** Summaries distribute over concatenation of traces. */
  lemma {:induction false} SummarizeAppend(t: seq<Event>, u: seq<Event>)
    ensures Summarize(t + u) == Combine(Summarize(t), Summarize(u))
    decreases |u|
  {
    if u == [] {
      assert t + u == t;
    } else {
      var u', e := u[..|u| - 1], u[|u| - 1];
      assert t + u == (t + u') + [e] && u == u' + [e];
      SummarizeAppend(t, u');
      SummarizeSnoc(t + u', e);
      SummarizeSnoc(u', e);
      CombineAdd(Summarize(t), Summarize(u'), e);
    }
  }

  /** The batches pushed by two traces in a row */
  lemma PutsAppend(t: seq<Event>, u: seq<Event>, pt: seq<Item>, pu: seq<Item>)
    requires Summarize(t).puts == pt && Summarize(u).puts == pu
    ensures Summarize(t + u).puts == pt + pu
  {
    SummarizeAppend(t, u);
  }

  lemma {:induction false} SumAppend(s: seq<real>, t: seq<real>)
    ensures Sum(s + t) == Sum(s) + Sum(t)
    decreases |t|
  {
    if t == [] {
      assert s + t == s;
    } else {
      var t' := t[..|t| - 1];
      assert (s + t)[..|s + t| - 1] == s + t';
      SumAppend(s, t');
    }
  }

  lemma SumThree(a: real, b: real, c: real)
    ensures Sum([a, b, c]) == a + b + c
  {
    assert [a][..0] == [];
    assert Sum([a]) == a;
    assert [a, b][..1] == [a];
    assert Sum([a, b]) == a + b;
    assert [a, b, c][..2] == [a, b];
  }

  lemma {:induction false} SumRepeat(v: real, n: nat)
    ensures Sum(SamplePlan.Repeat(v, n)) == n as real * v
  {
    if n > 0 {
      assert SamplePlan.Repeat(v, n)[..n - 1] == SamplePlan.Repeat(v, n - 1);
      SumRepeat(v, n - 1);
      assert (n - 1) as real * v + v == n as real * v;
    }
  }

  /** The camera saving each path in turn */
  function SaveEvents(paths: seq<string>): (t: seq<Event>)
    ensures |t| == |paths|
  {
    if paths == [] then [] else SaveEvents(paths[..|paths| - 1]) + [Save(paths[|paths| - 1])]
  }

  /** One more save appended to a log that holds the earlier ones */
  lemma SaveEventsSnoc(e0: seq<Event>, prefix: seq<Event>, paths: seq<string>, p: string)
    requires prefix == e0 + SaveEvents(paths)
    ensures prefix + [Save(p)] == e0 + SaveEvents(paths + [p])
  {
    assert (paths + [p])[..|paths|] == paths;
    assert SaveEvents(paths + [p]) == SaveEvents(paths) + [Save(p)];
    AppendAssoc(e0, SaveEvents(paths), [Save(p)]);
  }

  /** Saving frames moves nothing and pushes nothing. */
  lemma {:induction false} SaveEventsSummary(paths: seq<string>)
    ensures Summarize(SaveEvents(paths)) == Summary([], [], [], [], paths)
    decreases |paths|
  {
    if paths != [] {
      var front, last := paths[..|paths| - 1], paths[|paths| - 1];
      SaveEventsSummary(front);
      SummarizeAppend(SaveEvents(front), [Save(last)]);
      SummarizeOne(Save(last));
      assert front + [last] == paths;
    }
  }

  // ---------------------------------------------------------------------
  // Z stacks (capture_images_multiple_distances_new)
  // ---------------------------------------------------------------------

  /** Up by half the range plus the acceleration buffer, down through the
      whole range and both buffers while `paths` are saved, and back up to
      the middle.  The traces below take their file names as a parameter;
      the routines pass FramePaths. */
  function StackTrace(r: real, buf: real, paths: seq<string>): seq<Event>
  {
    var top := r / 2.0 + buf;
    [Move(Z, top), Move(Z, -1.0 * (r + buf * 2.0))] + SaveEvents(paths) + [Move(Z, top)]
  }

  /** Appending a stack's events one by one builds the stack trace. */
  lemma StackTraceSplit(e0: seq<Event>, r: real, buf: real, paths: seq<string>)
    ensures e0 + [Move(Z, r / 2.0 + buf)] + [Move(Z, -1.0 * (r + buf * 2.0))] + SaveEvents(paths) + [Move(Z, r / 2.0 + buf)]
         == e0 + StackTrace(r, buf, paths)
  {
  }

  /** A stack makes exactly three Z jogs, which cancel out, moves neither X
      nor Y, pushes nothing, and saves its frames in order. */
  lemma StackTraceShape(r: real, buf: real, paths: seq<string>)
    ensures Summarize(StackTrace(r, buf, paths))
         == Summary([], [], [r / 2.0 + buf, -1.0 * (r + buf * 2.0), r / 2.0 + buf], [], paths)
    ensures Sum(Summarize(StackTrace(r, buf, paths)).zs) == 0.0
  {
    var top, bottom := r / 2.0 + buf, -1.0 * (r + buf * 2.0);
    SaveEventsSummary(paths);
    ZBracket(top, bottom, SaveEvents(paths), paths);
    SumThree(top, bottom, top);
  }

  /** Two Z jogs, a trace that only saves, and a Z jog back */
  lemma ZBracket(top: real, bottom: real, mid: seq<Event>, saved: seq<string>)
    requires Summarize(mid) == Summary([], [], [], [], saved)
    ensures Summarize([Move(Z, top), Move(Z, bottom)] + mid + [Move(Z, top)]) == Summary([], [], [top, bottom, top], [], saved)
  {
    var head := [Move(Z, top), Move(Z, bottom)];
    assert head == [Move(Z, top)] + [Move(Z, bottom)];
    SummarizeOne(Move(Z, top));
    SummarizeSnoc([Move(Z, top)], Move(Z, bottom));
    SummarizeAppend(head, mid);
    SummarizeSnoc(head + mid, Move(Z, top));
  }

  // ---------------------------------------------------------------------
  // Legacy Z stacks (capture_images_multiple_distances)
  // ---------------------------------------------------------------------

  /** The guard as written: `n // 2 == 0` */
  predicate RejectsAsWritten(n: int)
  {
    n / 2 == 0
  }

  /** The guard as intended: only a positive odd count is accepted */
  predicate Rejects(n: int)
  {
    n < 1 || n % 2 == 0
  }

  /** The distance from the middle of the stack to its bottom:
      round(half * step, 3), where half = floor(n / 2) for a stack of n
      frames, which on an integer count is n // 2 (HalfFloor) */
  function StackOffset(step: real, half: int): real
  {
    RoundTo(half as real * step, 3)
  }

  /** Each of `paths` saved after a jog of one step up */
  function StepUps(step: real, paths: seq<string>): (t: seq<Event>)
  {
    if paths == [] then []
    else StepUps(step, paths[..|paths| - 1]) + [Move(Z, step), Save(paths[|paths| - 1])]
  }

  /** Down by the offset z, the first frame, a step up before each further
      frame, and down by z again (the source's "return to original
      position"). */
  function LegacyStackTrace(z: real, step: real, paths: seq<string>): seq<Event>
    requires paths != []
  {
    [Move(Z, -z), Save(paths[0])] + StepUps(step, paths[1..]) + [Move(Z, -z)]
  }

  lemma {:induction false} StepUpsSummary(step: real, paths: seq<string>)
    ensures Summarize(StepUps(step, paths)) == Summary([], [], SamplePlan.Repeat(step, |paths|), [], paths)
    decreases |paths|
  {
    if paths != [] {
      var front, last := paths[..|paths| - 1], paths[|paths| - 1];
      var prev := StepUps(step, front);
      StepUpsSummary(step, front);
      SummarizeSnoc(prev, Move(Z, step));
      SummarizeSnoc(prev + [Move(Z, step)], Save(last));
      SnocTwo(prev, Move(Z, step), Save(last));
      assert SamplePlan.Repeat(step, |front|) + [step] == SamplePlan.Repeat(step, |paths|);
      assert front + [last] == paths;
    }
  }

  lemma StepUpsSnoc(step: real, names: seq<string>, p: string)
    requires names != []
    ensures StepUps(step, (names + [p])[1..]) == StepUps(step, names[1..]) + [Move(Z, step), Save(p)]
  {
    assert (names + [p])[1..] == names[1..] + [p];
    assert (names[1..] + [p])[..|names| - 1] == names[1..];
  }

  lemma SnocTwo(a: seq<Event>, x: Event, y: Event)
    ensures a + [x] + [y] == a + [x, y]
  {
  }

  lemma AppendTwo(a: seq<Event>, b: seq<Event>, x: Event, y: Event)
    ensures a + b + [x] + [y] == a + (b + [x, y])
  {
  }

  lemma LegacyStackTraceSplit(e0: seq<Event>, z: real, step: real, paths: seq<string>)
    requires paths != []
    ensures e0 + [Move(Z, -z), Save(paths[0])] + StepUps(step, paths[1..]) + [Move(Z, -z)]
         == e0 + LegacyStackTrace(z, step, paths)
  {
  }

  /** The legacy stack: one jog down by z, a jog up by one step before each
      frame after the first, one more jog down by z; the frames saved in
      order; nothing pushed. */
  lemma LegacyStackShape(z: real, step: real, paths: seq<string>)
    requires paths != []
    ensures Summarize(LegacyStackTrace(z, step, paths))
         == Summary([], [], [-z] + SamplePlan.Repeat(step, |paths| - 1) + [-z], [], paths)
  {
    var ups := StepUps(step, paths[1..]);
    var head := [Move(Z, -z), Save(paths[0])];
    assert head == [Move(Z, -z)] + [Save(paths[0])];
    StepUpsSummary(step, paths[1..]);
    SummarizeOne(Move(Z, -z));
    SummarizeSnoc([Move(Z, -z)], Save(paths[0]));
    SummarizeAppend(head, ups);
    SummarizeSnoc(head + ups, Move(Z, -z));
    assert [paths[0]] + paths[1..] == paths;
  }

  /** The net Z displacement of a legacy stack */
  lemma LegacyNetZ(z: real, step: real, paths: seq<string>)
    requires paths != []
    ensures Sum(Summarize(LegacyStackTrace(z, step, paths)).zs) == (|paths| - 1) as real * step - 2.0 * z
  {
    var ups := SamplePlan.Repeat(step, |paths| - 1);
    LegacyStackShape(z, step, paths);
    SumAppend([-z], ups);
    SumAppend([-z] + ups, [-z]);
    SumRepeat(step, |paths| - 1);
    assert [-z][..0] == [];
  }

  /** Rounding aside, the offset is floor(n / 2) steps, i.e. n // 2 steps. */
  lemma HalfFloor(n: int)
    ensures Floor(n as real / 2.0) == n / 2
  {
    var q, m := n / 2, n % 2;
    assert n as real / 2.0 == q as real + m as real / 2.0;
  }

  /** The guard as written rejects exactly the counts 0 and 1. */
  lemma GuardAsWritten(n: int)
    ensures RejectsAsWritten(n) <==> n == 0 || n == 1
  {
  }

  /** As written, a stack of two frames is accepted and leaves the camera
      one step below where it started. */
  lemma EvenCountDriftsAsWritten(step: real, paths: seq<string>)
    requires OnGrid(step, 3) && |paths| == 2
    ensures !RejectsAsWritten(2) && Rejects(2)
    ensures Sum(Summarize(LegacyStackTrace(StackOffset(step, 2 / 2), step, paths)).zs) == -step
  {
    assert StackOffset(step, 2 / 2) == step by {
      StackOffsetExact(step, 1);
    }
    LegacyNetZ(StackOffset(step, 2 / 2), step, paths);
  }

  /** With the intended guard, every accepted stack of n frames returns the
      camera to where it started, provided the step has at most three
      decimals (so that rounding the offset changes nothing). */
  lemma StackReturnsHome(step: real, n: int, paths: seq<string>)
    requires !Rejects(n) && OnGrid(step, 3) && |paths| == n
    ensures Sum(Summarize(LegacyStackTrace(StackOffset(step, n / 2), step, paths)).zs) == 0.0
  {
    OddHalf(n, n / 2);
    StackReturnsHomeHalf(step, n / 2, paths);
  }

  /** A stack of 2m + 1 frames, offset by m steps, returns home. */
  lemma StackReturnsHomeHalf(step: real, m: int, paths: seq<string>)
    requires OnGrid(step, 3) && |paths| == 2 * m + 1
    ensures Sum(Summarize(LegacyStackTrace(StackOffset(step, m), step, paths)).zs) == 0.0
  {
    var z := StackOffset(step, m);
    StackOffsetExact(step, m);
    LegacyNetZ(z, step, paths);
    NetZero(Sum(Summarize(LegacyStackTrace(z, step, paths)).zs), |paths| - 1, m, step, z);
  }

  lemma OddHalf(n: int, m: int)
    requires !Rejects(n) && m == n / 2
    ensures n == 2 * m + 1
  {
  }

  /** 2m steps up and two jogs of m steps down cancel. */
  lemma NetZero(net: real, k: int, m: int, step: real, z: real)
    requires net == k as real * step - 2.0 * z && k == 2 * m && z == m as real * step
    ensures net == 0.0
  {
    assert k as real * step == 2.0 * (m as real * step);
  }

  /** For a step with at most three decimals, the rounded offset is exactly
      n // 2 steps. */
  lemma StackOffsetExact(step: real, m: int)
    requires OnGrid(step, 3)
    ensures StackOffset(step, m) == m as real * step
  {
    RoundMultipleOnGrid(step, m, 3);
  }

  // ---------------------------------------------------------------------
  // The serpentine traversal (capture_grid_photos)
  // ---------------------------------------------------------------------

  /** The column of the k-th capture in a row: left to right on even rows,
      right to left on odd rows */
  function CaptureCol(row: int, k: int, cols: int): int
  {
    if row % 2 == 1 then cols - 1 - k else k
  }

  /** The X jog between captures: +x_dist on even rows, -x_dist on odd rows */
  function XJog(row: int, xDist: real): real
  {
    if row % 2 == 1 then -xDist else xDist
  }

  /** The stack taken at every cell: range 1 mm, buffer 0.2 mm */
  function CellStack(paths: seq<string>): seq<Event>
  {
    StackTrace(1.0, 0.2, paths)
  }

  /** The file names of the 20-frame stack the grid capture takes at
      (row, col) in directory `dir` */
  function GridStack(dir: string, row: int, col: int): seq<string>
  {
    FramePaths(dir, row, col, GridFrames)
  }

  /** Frames per stack in the grid capture */
  const GridFrames: int := 20

  /** The stacks of the grid capture, as a function of the cell */
  function GridFiles(dir: string): (int, int) -> seq<string>
  {
    (r: int, c: int) => GridStack(dir, r, c)
  }

  lemma GridFilesAt(dir: string, r: int, c: int)
    ensures GridFiles(dir)(r, c) == GridStack(dir, r, c)
  {
  }

  /** The first k captures of a row, each followed by an X jog and by
      pushing the stack's file names */
  function RowSteps(files: (int, int) -> seq<string>, row: int, cols: int, xDist: real, k: int): seq<Event>
    decreases k
  {
    if k <= 0 then [] else RowSteps(files, row, cols, xDist, k - 1) + CaptureStep(files, row, cols, xDist, k - 1)
  }

  /** Capture k of a row but its last: the stack at the column the
      serpentine order visits k-th, the X jog in the row's direction, and
      the push of the stack's names */
  function CaptureStep(files: (int, int) -> seq<string>, row: int, cols: int, xDist: real, k: int): seq<Event>
  {
    var col := CaptureCol(row, k, cols);
    CellStack(files(row, col)) + [Move(X, XJog(row, xDist)), Put(Batch(files(row, col)))]
  }

  /** The last capture of a row: its stack, the push of its names, and the
      jog of -y_dist to the next row */
  function RowEnd(files: (int, int) -> seq<string>, row: int, cols: int, yDist: real): seq<Event>
  {
    var col := CaptureCol(row, cols - 1, cols);
    CellStack(files(row, col)) + [Put(Batch(files(row, col))), Move(Y, -yDist)]
  }

  /** A whole row: cols - 1 captures with a jog after each, the last
      capture without one, and a jog of -y_dist to the next row. */
  function RowTrace(files: (int, int) -> seq<string>, row: int, cols: int, yDist: real, xDist: real): seq<Event>
  {
    RowSteps(files, row, cols, xDist, cols - 1) + RowEnd(files, row, cols, yDist)
  }

  /** The traces of rows 0 .. k-1 laid end to end */
  function Rows(files: (int, int) -> seq<string>, cols: int, yDist: real, xDist: real, k: int): seq<Event>
    decreases k
  {
    if k <= 0 then [] else Rows(files, cols, yDist, xDist, k - 1) + RowTrace(files, k - 1, cols, yDist, xDist)
  }

  /** All rows, then the end-of-capture sentinel */
  function GridTrace(files: (int, int) -> seq<string>, rows: int, cols: int, yDist: real, xDist: real): seq<Event>
  {
    Rows(files, cols, yDist, xDist, rows) + [Put(Sentinel)]
  }

  lemma AppendAssoc(a: seq<Event>, b: seq<Event>, c: seq<Event>)
    ensures a + b + c == a + (b + c)
  {
  }

  lemma AppendStep(a: seq<Event>, s: seq<Event>, x: Event, y: Event)
    ensures a + s + [x] + [y] == a + (s + [x, y])
  {
    assert s + [x] + [y] == s + [x, y];
  }

  /** A capture of the grid, spelled out on the stack's names */
  lemma CaptureStepAt(dir: string, row: int, cols: int, xDist: real, k: int)
    ensures var stack := GridStack(dir, row, CaptureCol(row, k, cols));
      CaptureStep(GridFiles(dir), row, cols, xDist, k)
        == CellStack(stack) + [Move(X, XJog(row, xDist)), Put(Batch(stack))]
  {
    GridFilesAt(dir, row, CaptureCol(row, k, cols));
  }

  /** The end of a grid row, spelled out on the stack's names */
  lemma RowEndAt(dir: string, row: int, cols: int, yDist: real)
    ensures var stack := GridStack(dir, row, CaptureCol(row, cols - 1, cols));
      RowEnd(GridFiles(dir), row, cols, yDist) == CellStack(stack) + [Put(Batch(stack)), Move(Y, -yDist)]
  {
    GridFilesAt(dir, row, CaptureCol(row, cols - 1, cols));
  }

  /** One more capture of a row, appended to a log that holds the first k */
  lemma RowStepsSnoc(e0: seq<Event>, prefix: seq<Event>, files: (int, int) -> seq<string>, row: int, cols: int,
                     xDist: real, k: int)
    requires k >= 0 && prefix == e0 + RowSteps(files, row, cols, xDist, k)
    ensures prefix + CaptureStep(files, row, cols, xDist, k) == e0 + RowSteps(files, row, cols, xDist, k + 1)
  {
    AppendAssoc(e0, RowSteps(files, row, cols, xDist, k), CaptureStep(files, row, cols, xDist, k));
  }

  /** The inner loop of a row ends after max(cols - 1, 0) captures. */
  lemma RowStepsDone(files: (int, int) -> seq<string>, row: int, cols: int, xDist: real, col: int)
    requires col == Max(cols - 1, 0)
    ensures RowSteps(files, row, cols, xDist, col) == RowSteps(files, row, cols, xDist, cols - 1)
  {
  }

  /** The end of a row, appended to a log that holds the rest of it */
  lemma RowTraceSplit(e0: seq<Event>, prefix: seq<Event>, files: (int, int) -> seq<string>, row: int, cols: int,
                      yDist: real, xDist: real)
    requires prefix == e0 + RowSteps(files, row, cols, xDist, cols - 1)
    ensures prefix + RowEnd(files, row, cols, yDist) == e0 + RowTrace(files, row, cols, yDist, xDist)
  {
    AppendAssoc(e0, RowSteps(files, row, cols, xDist, cols - 1), RowEnd(files, row, cols, yDist));
  }

  lemma RowsDone(files: (int, int) -> seq<string>, cols: int, yDist: real, xDist: real, row: int, rows: int)
    requires row == Max(rows, 0)
    ensures Rows(files, cols, yDist, xDist, row) == Rows(files, cols, yDist, xDist, rows)
  {
  }

  /** One more row appended to a log that holds the first k */
  lemma RowsSnoc(e0: seq<Event>, prefix: seq<Event>, files: (int, int) -> seq<string>, cols: int, yDist: real,
                 xDist: real, k: int)
    requires k >= 0 && prefix == e0 + Rows(files, cols, yDist, xDist, k)
    ensures prefix + RowTrace(files, k, cols, yDist, xDist) == e0 + Rows(files, cols, yDist, xDist, k + 1)
  {
    AppendAssoc(e0, Rows(files, cols, yDist, xDist, k), RowTrace(files, k, cols, yDist, xDist));
  }

  /** A stack that moves only Z, and by nothing in total, pushes nothing */
  predicate ZOnly(s: Summary)
  {
    s.xs == [] && s.ys == [] && s.puts == [] && Sum(s.zs) == 0.0
  }

  lemma CellStackSummary(paths: seq<string>)
    ensures ZOnly(Summarize(CellStack(paths)))
  {
    StackTraceShape(1.0, 0.2, paths);
  }

  /** Appending a stack, an X jog and a put to a trace */
  lemma StackThenJog(p: seq<Event>, s: seq<Event>, d: real, b: Item)
    requires ZOnly(Summarize(s))
    ensures Summarize(p + s + [Move(X, d)] + [Put(b)]).xs == Summarize(p).xs + [d]
    ensures Summarize(p + s + [Move(X, d)] + [Put(b)]).ys == Summarize(p).ys
    ensures Sum(Summarize(p + s + [Move(X, d)] + [Put(b)]).zs) == Sum(Summarize(p).zs)
    ensures Summarize(p + s + [Move(X, d)] + [Put(b)]).puts == Summarize(p).puts + [b]
  {
    SummarizeAppend(p, s);
    SummarizeSnoc(p + s, Move(X, d));
    SummarizeSnoc(p + s + [Move(X, d)], Put(b));
    SumAppend(Summarize(p).zs, Summarize(s).zs);
  }

  /** Appending a stack, a put and a Y jog to a trace */
  lemma StackThenNextRow(p: seq<Event>, s: seq<Event>, b: Item, d: real)
    requires ZOnly(Summarize(s))
    ensures Summarize(p + s + [Put(b)] + [Move(Y, d)]).xs == Summarize(p).xs
    ensures Summarize(p + s + [Put(b)] + [Move(Y, d)]).ys == Summarize(p).ys + [d]
    ensures Sum(Summarize(p + s + [Put(b)] + [Move(Y, d)]).zs) == Sum(Summarize(p).zs)
    ensures Summarize(p + s + [Put(b)] + [Move(Y, d)]).puts == Summarize(p).puts + [b]
  {
    SummarizeAppend(p, s);
    SummarizeSnoc(p + s, Put(b));
    SummarizeSnoc(p + s + [Put(b)], Move(Y, d));
    SumAppend(Summarize(p).zs, Summarize(s).zs);
  }

  /** The batches the first k captures of a row push, in capture order */
  function RowBatches(files: (int, int) -> seq<string>, row: int, cols: int, k: int): (b: seq<Item>)
    ensures |b| == Max(k, 0)
    decreases k
  {
    if k <= 0 then [] else RowBatches(files, row, cols, k - 1) + [Batch(files(row, CaptureCol(row, k - 1, cols)))]
  }

  /** The j-th batch of a row is the stack of the j-th cell in serpentine order. */
  lemma {:induction false} RowBatchesAt(files: (int, int) -> seq<string>, row: int, cols: int, k: int, j: int)
    requires 0 <= j < k
    ensures RowBatches(files, row, cols, k)[j] == Batch(files(row, CaptureCol(row, j, cols)))
    decreases k
  {
    if j < k - 1 {
      RowBatchesAt(files, row, cols, k - 1, j);
    }
  }

  lemma {:induction false} RowStepsSummary(files: (int, int) -> seq<string>, row: int, cols: int, xDist: real, k: int)
    requires k >= 0
    ensures Summarize(RowSteps(files, row, cols, xDist, k)).xs == SamplePlan.Repeat(XJog(row, xDist), k)
    ensures Summarize(RowSteps(files, row, cols, xDist, k)).ys == []
    ensures Sum(Summarize(RowSteps(files, row, cols, xDist, k)).zs) == 0.0
    ensures Summarize(RowSteps(files, row, cols, xDist, k)).puts == RowBatches(files, row, cols, k)
    decreases k
  {
    if k > 0 {
      var col := CaptureCol(row, k - 1, cols);
      var prev := RowSteps(files, row, cols, xDist, k - 1);
      var stack := CellStack(files(row, col));
      var b := Batch(files(row, col));
      AppendStep(prev, stack, Move(X, XJog(row, xDist)), Put(b));
      RowStepsSummary(files, row, cols, xDist, k - 1);
      CellStackSummary(files(row, col));
      StackThenJog(prev, stack, XJog(row, xDist), b);
      assert SamplePlan.Repeat(XJog(row, xDist), k - 1) + [XJog(row, xDist)] == SamplePlan.Repeat(XJog(row, xDist), k);
    }
  }

  /** A row moves X by cols - 1 jogs of the row's direction, moves Y once by
      -y_dist as its last event, has zero net Z, and pushes one batch per
      column, in the row's serpentine order. */
  lemma RowTraceSummary(files: (int, int) -> seq<string>, row: int, cols: int, yDist: real, xDist: real)
    requires cols >= 1
    ensures Summarize(RowTrace(files, row, cols, yDist, xDist)).xs == SamplePlan.Repeat(XJog(row, xDist), cols - 1)
    ensures Summarize(RowTrace(files, row, cols, yDist, xDist)).ys == [-yDist]
    ensures Sum(Summarize(RowTrace(files, row, cols, yDist, xDist)).zs) == 0.0
    ensures Summarize(RowTrace(files, row, cols, yDist, xDist)).puts == RowBatches(files, row, cols, cols)
    ensures RowTrace(files, row, cols, yDist, xDist)[|RowTrace(files, row, cols, yDist, xDist)| - 1] == Move(Y, -yDist)
  {
    var col := CaptureCol(row, cols - 1, cols);
    var steps := RowSteps(files, row, cols, xDist, cols - 1);
    var stack := CellStack(files(row, col));
    var b := Batch(files(row, col));
    AppendStep(steps, stack, Put(b), Move(Y, -yDist));
    RowStepsSummary(files, row, cols, xDist, cols - 1);
    CellStackSummary(files(row, col));
    StackThenNextRow(steps, stack, b, -yDist);
  }

  /** The batches the first k rows push, row after row */
  function GridBatches(files: (int, int) -> seq<string>, cols: int, k: int): (b: seq<Item>)
    ensures cols >= 0 ==> |b| == Max(k, 0) * cols
    decreases k
  {
    if k <= 0 then [] else GridBatches(files, cols, k - 1) + RowBatches(files, k - 1, cols, cols)
  }

  /** Where X stands, relative to the first column, after k rows of the
      serpentine walk: at the far column after an odd number of rows, back
      at the first column after an even number. */
  function XAfterRows(k: int, cols: int, xDist: real): real
  {
    if k % 2 == 1 then (cols - 1) as real * xDist else 0.0
  }

  /** One more row of cols - 1 jogs flips X between the two ends. */
  lemma XAfterNextRow(before: real, row: real, k: int, cols: int, xDist: real)
    requires k >= 1 && cols >= 1
    requires before == XAfterRows(k - 1, cols, xDist) && row == Sum(SamplePlan.Repeat(XJog(k - 1, xDist), cols - 1))
    ensures before + row == XAfterRows(k, cols, xDist)
  {
    SumRepeat(XJog(k - 1, xDist), cols - 1);
    var w := (cols - 1) as real;
    if k % 2 == 1 {
      assert (k - 1) % 2 == 0;
    } else {
      assert (k - 1) % 2 == 1;
      assert w * -xDist == -(w * xDist);
    }
  }

  /** The moves of row r of the grid: cols - 1 X jogs in the row's
      direction, one Y jog of -y_dist, Z moves that cancel */
  predicate RowMoved(s: Summary, r: int, cols: int, yDist: real, xDist: real)
  {
    cols >= 1 && s.xs == SamplePlan.Repeat(XJog(r, xDist), cols - 1) && s.ys == [-yDist] && Sum(s.zs) == 0.0
  }

  /** The moves of the first k rows: one Y jog of -y_dist per row, Z moves
      that cancel, and X standing where XAfterRows says */
  predicate RowsMoved(s: Summary, k: int, cols: int, yDist: real, xDist: real)
  {
    k >= 0 && s.ys == SamplePlan.Repeat(-yDist, k) && Sum(s.zs) == 0.0 && Sum(s.xs) == XAfterRows(k, cols, xDist)
  }

  /** What appending one more row does to the moves of a trace */
  lemma AppendRowMoves(a: seq<Event>, b: seq<Event>, k: int, cols: int, yDist: real, xDist: real)
    requires k >= 1
    requires RowsMoved(Summarize(a), k - 1, cols, yDist, xDist) && RowMoved(Summarize(b), k - 1, cols, yDist, xDist)
    ensures RowsMoved(Summarize(a + b), k, cols, yDist, xDist)
  {
    SummarizeAppend(a, b);
    var sa, sb := Summarize(a), Summarize(b);
    SumAppend(sa.zs, sb.zs);
    SumAppend(sa.xs, sb.xs);
    XAfterNextRow(Sum(sa.xs), Sum(sb.xs), k, cols, xDist);
    assert SamplePlan.Repeat(-yDist, k - 1) + [-yDist] == SamplePlan.Repeat(-yDist, k);
  }

  /** The first k rows: each moves Y once by -y_dist, the Z moves cancel,
      and X ends where XAfterRows says. */
  lemma {:induction false} RowsMoves(files: (int, int) -> seq<string>, k: int, cols: int, yDist: real, xDist: real)
    requires k >= 0 && cols >= 1
    ensures RowsMoved(Summarize(Rows(files, cols, yDist, xDist, k)), k, cols, yDist, xDist)
    decreases k
  {
    if k > 0 {
      var r := k - 1;
      var prev, row := Rows(files, cols, yDist, xDist, r), RowTrace(files, r, cols, yDist, xDist);
      assert RowsMoved(Summarize(prev), r, cols, yDist, xDist) by {
        RowsMoves(files, r, cols, yDist, xDist);
      }
      assert RowMoved(Summarize(row), r, cols, yDist, xDist) by {
        RowTraceSummary(files, r, cols, yDist, xDist);
      }
      assert Rows(files, cols, yDist, xDist, k) == prev + row;
      AppendRowMoves(prev, row, k, cols, yDist, xDist);
    }
  }

  /** The first k rows push the rows' batches in order. */
  lemma {:induction false} RowsPuts(files: (int, int) -> seq<string>, cols: int, yDist: real, xDist: real, k: int)
    requires k >= 0 && cols >= 1
    ensures Summarize(Rows(files, cols, yDist, xDist, k)).puts == GridBatches(files, cols, k)
    decreases k
  {
    if k > 0 {
      var r := k - 1;
      var prev, row := Rows(files, cols, yDist, xDist, r), RowTrace(files, r, cols, yDist, xDist);
      var before, batches := GridBatches(files, cols, r), RowBatches(files, r, cols, cols);
      assert Summarize(prev).puts == before by {
        RowsPuts(files, cols, yDist, xDist, r);
      }
      assert Summarize(row).puts == batches by {
        RowTraceSummary(files, r, cols, yDist, xDist);
      }
      assert Rows(files, cols, yDist, xDist, k) == prev + row;
      PutsAppend(prev, row, before, batches);
    }
  }

  /** Batch i of the grid is the stack of row i / cols, at the column the
      serpentine order visits i % cols-th in that row. */
  lemma {:induction false} GridBatchesAt(files: (int, int) -> seq<string>, cols: int, k: int, i: int)
    requires cols >= 1 && 0 <= i < k * cols
    ensures GridBatches(files, cols, k)[i] == Batch(files(i / cols, CaptureCol(i / cols, i % cols, cols)))
    decreases k
  {
    var before := (k - 1) * cols;
    if i < before {
      GridBatchesAt(files, cols, k - 1, i);
    } else {
      var j := i - before;
      RowBatchesAt(files, k - 1, cols, cols, j);
      DivModUnique(i, cols, k - 1, j);
    }
  }

  /** The serpentine order visits the columns of a row as a permutation:
      it stays in range and undoes itself. */
  lemma CaptureColInvolution(row: int, c: int, cols: int)
    requires 0 <= c < cols
    ensures 0 <= CaptureCol(row, c, cols) < cols
    ensures CaptureCol(row, CaptureCol(row, c, cols), cols) == c
  {
  }

  /** Every cell of the grid is captured, at position
      row * cols + its place in the row's serpentine order. */
  lemma GridVisitsEveryCell(files: (int, int) -> seq<string>, rows: int, cols: int, r: int, c: int)
    requires 0 <= r < rows && 0 <= c < cols
    ensures 0 <= r * cols + CaptureCol(r, c, cols) < rows * cols
    ensures GridBatches(files, cols, rows)[r * cols + CaptureCol(r, c, cols)] == Batch(files(r, c))
  {
    var i := r * cols + CaptureCol(r, c, cols);
    CaptureColInvolution(r, c, cols);
    assert (r + 1) * cols <= rows * cols by {
      MulAtLeast(rows - r, cols);
      assert rows * cols - (r + 1) * cols == (rows - r) * cols - cols;
    }
    DivModUnique(i, cols, r, CaptureCol(r, c, cols));
    GridBatchesAt(files, cols, rows, i);
  }

  /** When distinct cells have distinct stacks (GridFilesInjective), no
      batch is pushed twice. */
  lemma GridBatchesDistinct(files: (int, int) -> seq<string>, rows: int, cols: int, i: int, j: int)
    requires cols >= 1 && 0 <= i < rows * cols && 0 <= j < rows * cols && i != j
    requires forall r, c, r', c' ::
      (0 <= r < rows && 0 <= c < cols && 0 <= r' < rows && 0 <= c' < cols && files(r, c) == files(r', c'))
        ==> r == r' && c == c'
    ensures GridBatches(files, cols, rows)[i] != GridBatches(files, cols, rows)[j]
  {
    var ri, mi, rj, mj := i / cols, i % cols, j / cols, j % cols;
    DivBelow(i, rows, cols);
    DivBelow(j, rows, cols);
    GridBatchesAt(files, cols, rows, i);
    GridBatchesAt(files, cols, rows, j);
    var ci, cj := CaptureCol(ri, mi, cols), CaptureCol(rj, mj, cols);
    CaptureColInvolution(ri, mi, cols);
    CaptureColInvolution(rj, mj, cols);
    if files(ri, ci) == files(rj, cj) {
      assert false;
    }
  }

  lemma DivBelow(i: int, rows: int, cols: int)
    requires cols >= 1 && 0 <= i < rows * cols
    ensures 0 <= i / cols < rows && 0 <= i % cols < cols && i == (i / cols) * cols + i % cols
  {
    if rows <= i / cols {
      MulMonotone(rows, i / cols, cols);
    }
  }

  /** Distinct cells get distinct stacks: their first frames already differ. */
  lemma GridStackInjective(dir: string, r: int, c: int, r': int, c': int)
    requires GridStack(dir, r, c) == GridStack(dir, r', c')
    ensures r == r' && c == c'
  {
    assert GridStack(dir, r, c)[0] == FramePath(dir, r, c, 0);
    assert GridStack(dir, r', c')[0] == FramePath(dir, r', c', 0);
    FramePathInjective(dir, r, c, 0, r', c', 0);
  }

  /** The grid capture's stacks of distinct cells differ. */
  lemma GridFilesInjective(dir: string, r: int, c: int, r': int, c': int)
    requires GridFiles(dir)(r, c) == GridFiles(dir)(r', c')
    ensures r == r' && c == c'
  {
    GridFilesAt(dir, r, c);
    GridFilesAt(dir, r', c');
    GridStackInjective(dir, r, c, r', c');
  }

  /** The whole grid: one batch per cell in capture order, then the
      sentinel; the walk moves Y once per row, its Z moves cancel and X
      ends where XAfterRows says. */
  lemma GridTraceSummary(files: (int, int) -> seq<string>, rows: int, cols: int, yDist: real, xDist: real)
    requires rows >= 0 && cols >= 1
    ensures Summarize(GridTrace(files, rows, cols, yDist, xDist)).puts == GridBatches(files, cols, rows) + [Sentinel]
    ensures |Summarize(GridTrace(files, rows, cols, yDist, xDist)).puts| == rows * cols + 1
    ensures Summarize(GridTrace(files, rows, cols, yDist, xDist)).ys == SamplePlan.Repeat(-yDist, rows)
    ensures Sum(Summarize(GridTrace(files, rows, cols, yDist, xDist)).zs) == 0.0
    ensures Sum(Summarize(GridTrace(files, rows, cols, yDist, xDist)).xs) == XAfterRows(rows, cols, xDist)
  {
    RowsMoves(files, rows, cols, yDist, xDist);
    RowsPuts(files, cols, yDist, xDist, rows);
    SummarizeSnoc(Rows(files, cols, yDist, xDist, rows), Put(Sentinel));
  }

  // ---------------------------------------------------------------------
  // The grid (calculate_grid)
  // ---------------------------------------------------------------------

  /** calculate_grid for one cookie: the steps are the image sizes less
      their rounded overlap, and each count is ceil(extent / step), not
      forced odd.  A zero step is Python's ZeroDivisionError. */
  function GridFor(imageWidthMm: real, imageHeightMm: real, width: real, height: real, pct: real): Result<Grid, ControllerError>
  {
    var xStep := SamplePlan.StepSize(imageWidthMm, pct);
    var yStep := SamplePlan.StepSize(imageHeightMm, pct);
    if xStep == 0.0 || yStep == 0.0 then Err(ZeroDivision)
    else Ok(Grid(Ceil(height / yStep), Ceil(width / xStep), yStep, xStep))
  }

  /** ceil(extent / step) steps cover the extent, and one fewer do not. */
  lemma CeilCover(extent: real, step: real)
    requires step > 0.0
    ensures Ceil(extent / step) as real * step >= extent
    ensures (Ceil(extent / step) - 1) as real * step < extent
  {
    var q := extent / step;
    var c := Ceil(q);
    assert q * step == extent;
    assert c as real * step >= q * step;
    var m := (c - 1) as real;
    assert m < q;
    MulLt(m, q, step);
    assert m * step < extent;
    assert (Ceil(extent / step) - 1) as real == m;
  }

  /** With positive steps the grid is the least one that covers the
      cookie: rows x yStep reaches its height and cols x xStep its width,
      while one row or column fewer falls short. */
  lemma GridForLeastCover(imageWidthMm: real, imageHeightMm: real, width: real, height: real, pct: real)
    requires SamplePlan.StepSize(imageWidthMm, pct) > 0.0 && SamplePlan.StepSize(imageHeightMm, pct) > 0.0
    ensures GridFor(imageWidthMm, imageHeightMm, width, height, pct).Ok?
    ensures var g := GridFor(imageWidthMm, imageHeightMm, width, height, pct).value;
      g.xStep == SamplePlan.StepSize(imageWidthMm, pct) && g.yStep == SamplePlan.StepSize(imageHeightMm, pct)
      && g.cols as real * g.xStep >= width && (g.cols - 1) as real * g.xStep < width
      && g.rows as real * g.yStep >= height && (g.rows - 1) as real * g.yStep < height
  {
    CeilCover(width, SamplePlan.StepSize(imageWidthMm, pct));
    CeilCover(height, SamplePlan.StepSize(imageHeightMm, pct));
  }

  /** The controller's grid and the sample planner's agree on the steps;
      the planner's counts are the controller's, bumped to the next odd
      number when even. */
  lemma GridForVersusPlanner(imageWidthMm: real, imageHeightMm: real, width: real, height: real, pct: real)
    requires GridFor(imageWidthMm, imageHeightMm, width, height, pct).Ok?
    ensures var g := GridFor(imageWidthMm, imageHeightMm, width, height, pct).value;
      var p := SamplePlan.CalculateGridParams(width, height, imageWidthMm, imageHeightMm, pct);
      p.xStep == g.xStep && p.yStep == g.yStep
      && p.rows == (if g.rows % 2 == 1 then g.rows else g.rows + 1)
      && p.cols == (if g.cols % 2 == 1 then g.cols else g.cols + 1)
  {
  }

  // ---------------------------------------------------------------------
  // The controller
  // ---------------------------------------------------------------------

  /** What the stage, the camera and the focus queue have been asked to do */
  class EventLog {
    var events: seq<Event>

    constructor ()
      ensures events == []
    {
      events := [];
    }

    method Append(e: Event)
      modifies this
      ensures events == old(events) + [e]
    {
      events := events + [e];
    }
  }

  class Controller {
    var cookies: seq<Cookie>
    const gantry: Gantry
    const log: EventLog
    var imageHeightMm: real
    var imageWidthMm: real
    var directory: string

    constructor (imageWidthMm: real, imageHeightMm: real)
      ensures cookies == [] && this.imageWidthMm == imageWidthMm && this.imageHeightMm == imageHeightMm
      ensures directory == "."
      ensures fresh(gantry) && gantry.serialPortName == "/dev/ttyUSB0"
      ensures gantry.feedRateZ == 15 && gantry.feedRateXY == 200
      ensures fresh(log) && log.events == []
    {
      cookies := [];
      gantry := new Gantry("/dev/ttyUSB0");
      log := new EventLog();
      this.imageHeightMm := imageHeightMm;
      this.imageWidthMm := imageWidthMm;
      directory := ".";
    }

    method SetImageHeightMm(height: real)
      modifies this
      ensures imageHeightMm == height
      ensures imageWidthMm == old(imageWidthMm) && cookies == old(cookies) && directory == old(directory)
    {
      imageHeightMm := height;
    }

    method SetImageWidthMm(width: real)
      modifies this
      ensures imageWidthMm == width
      ensures imageHeightMm == old(imageHeightMm) && cookies == old(cookies) && directory == old(directory)
    {
      imageWidthMm := width;
    }

    method SetDirectory(dir: string)
      modifies this
      ensures directory == dir
      ensures imageWidthMm == old(imageWidthMm) && imageHeightMm == old(imageHeightMm) && cookies == old(cookies)
    {
      directory := dir;
    }

    /** calculate_grid: the grid for the most recently added cookie; with
        no cookie the source fails (its result variables are unbound). */
    function CalculateGrid(): (g: Result<Grid, ControllerError>)
      reads this
      ensures cookies == [] ==> g == Err(NoCookie)
      ensures cookies != [] ==>
        var c := cookies[|cookies| - 1];
        g == GridFor(imageWidthMm, imageHeightMm, c.width, c.height, c.percentOverlap)
    {
      if |cookies| > 0 then
        var c := cookies[|cookies| - 1];
        GridFor(imageWidthMm, imageHeightMm, c.width, c.height, c.percentOverlap)
      else Err(NoCookie)
    }

    /** Appends one new cookie and keeps the earlier ones. */
    method AddCookieSample(width: real, height: real, overlap: real)
      modifies this
      ensures |cookies| == |old(cookies)| + 1 && cookies[..|old(cookies)|] == old(cookies)
      ensures fresh(cookies[|cookies| - 1])
      ensures cookies[|cookies| - 1].width == width && cookies[|cookies| - 1].height == height
      ensures cookies[|cookies| - 1].percentOverlap == overlap
      ensures cookies[|cookies| - 1].startPoint == (None, None)
      ensures imageWidthMm == old(imageWidthMm) && imageHeightMm == old(imageHeightMm) && directory == old(directory)
    {
      var ck := new Cookie(width, height, overlap);
      cookies := cookies + [ck];
    }

    /** Mode 1 is slow (xy 200, z 15), mode 2 fast (xy 500, z 75); any
        other mode changes nothing. */
    method SetFeedRate(mode: int)
      modifies gantry
      ensures mode == 1 ==> gantry.feedRateXY == 200 && gantry.feedRateZ == 15
      ensures mode == 2 ==> gantry.feedRateXY == 500 && gantry.feedRateZ == 75
      ensures mode != 1 && mode != 2 ==>
        gantry.feedRateXY == old(gantry.feedRateXY) && gantry.feedRateZ == old(gantry.feedRateZ)
      ensures gantry.feedRateFastXY == old(gantry.feedRateFastXY) && gantry.feedRateFastZ == old(gantry.feedRateFastZ)
      ensures gantry.s == old(gantry.s) && gantry.connected == old(gantry.connected)
      ensures gantry.cookieSamples == old(gantry.cookieSamples) && gantry.coreSamples == old(gantry.coreSamples)
    {
      if mode == 1 {
        gantry.feedRateXY := 200;
        gantry.feedRateZ := 15;
      }
      if mode == 2 {
        gantry.feedRateXY := 500;
        gantry.feedRateZ := 75;
      }
    }

    method JogX(dist: real)
      modifies log
      ensures log.events == old(log.events) + [Move(X, dist)]
    {
      log.Append(Move(X, dist));
    }

    method JogY(dist: real)
      modifies log
      ensures log.events == old(log.events) + [Move(Y, dist)]
    {
      log.Append(Move(Y, dist));
    }

    method JogZ(dist: real)
      modifies log
      ensures log.events == old(log.events) + [Move(Z, dist)]
    {
      log.Append(Move(Z, dist));
    }

    /** capture_images_multiple_distances_new: up by half the range plus
        the buffer, down through the range and both buffers while the
        frames 0 .. image_count - 1 are saved in order, and back up to the
        middle.  Its first line divides by the feed rate and by the frame
        count, so either being zero fails before anything moves. */
    method CaptureImagesMultipleDistancesNew(imageCount: int, feedRate: int, r: real, accelerationBuffer: real,
                                             row: int, col: int)
      returns (result: Result<seq<string>, ControllerError>)
      modifies log
      ensures result.Err? <==> (imageCount == 0 || feedRate == 0)
      ensures result.Err? ==> result.error == ZeroDivision && log.events == old(log.events)
      ensures result.Ok? ==> result.value == FramePaths(directory, row, col, imageCount)
      ensures result.Ok? ==> log.events == old(log.events) + StackTrace(r, accelerationBuffer, result.value)
    {
      if feedRate == 0 || imageCount == 0 {
        return Err(ZeroDivision);
      }
      ghost var e0 := log.events;
      var top := r / 2.0 + accelerationBuffer;
      JogZ(top);
      var bottom := -1.0 * (r + accelerationBuffer * 2.0);
      JogZ(bottom);
      var names := SaveFrames(row, col, imageCount);
      JogZ(top);
      StackTraceSplit(e0, r, accelerationBuffer, names);
      return Ok(names);
    }

    /** The camera saves frames 0 .. n-1 of the stack at (row, col), in
        order, and their names are returned. */
    method SaveFrames(row: int, col: int, n: int) returns (names: seq<string>)
      modifies log
      ensures names == FramePaths(directory, row, col, n)
      ensures log.events == old(log.events) + SaveEvents(names)
    {
      names := [];
      var i := 0;
      while i < n
        invariant 0 <= i && (n >= 0 ==> i <= n) && (n < 0 ==> i == 0)
        invariant names == FramePaths(directory, row, col, i)
        invariant log.events == old(log.events) + SaveEvents(names)
      {
        var path := FramePath(directory, row, col, i);
        SaveEventsSnoc(old(log.events), log.events, names, path);
        FramePathsSnoc(directory, row, col, i);
        names := names + [path];
        log.Append(Save(path));
        i := i + 1;
      }
    }

    /** The legacy stack once its guard has passed: down by the offset
        (the caller rounds it), frame 0, then a step up before each frame 1 .. n-1, and down
        by the offset again.  Frame 0 is taken whatever n is. */
    method TakeLegacyStack(zOffset: real, stepSizeMm: real, n: int, row: int, col: int) returns (names: seq<string>)
      modifies log
      ensures names == FramePaths(directory, row, col, Max(n, 1))
      ensures log.events == old(log.events) + LegacyStackTrace(zOffset, stepSizeMm, names)
    {
      JogZ(-zOffset);
      var first := FramePath(directory, row, col, 0);
      names := [first];
      assert names == FramePaths(directory, row, col, 1) by {
        FramePathsSnoc(directory, row, col, 0);
      }
      log.Append(Save(first));
      ghost var head := old(log.events) + [Move(Z, -zOffset), Save(first)];
      assert log.events == head + StepUps(stepSizeMm, names[1..]);
      var i := 1;
      while i < n
        invariant 1 <= i <= Max(n, 1)
        invariant names == FramePaths(directory, row, col, i) && names[0] == first
        invariant log.events == head + StepUps(stepSizeMm, names[1..])
      {
        JogZ(stepSizeMm);
        var path := FramePath(directory, row, col, i);
        StepUpsSnoc(stepSizeMm, names, path);
        log.Append(Save(path));
        AppendTwo(head, StepUps(stepSizeMm, names[1..]), Move(Z, stepSizeMm), Save(path));
        FramePathsSnoc(directory, row, col, i);
        names := names + [path];
        i := i + 1;
      }
      JogZ(-zOffset);
      assert log.events == head + StepUps(stepSizeMm, names[1..]) + [Move(Z, -zOffset)];
      LegacyStackTraceSplit(old(log.events), zOffset, stepSizeMm, names);
    }

    /** capture_images_multiple_distances as written: the guard
        `image_count_odd // 2 == 0` turns away only the counts 0 and 1. */
    method CaptureImagesMultipleDistancesAsWritten(stepSizeMm: real, imageCountOdd: int, row: int, col: int)
      returns (result: StackResult)
      modifies log
      ensures result == MustBeOdd <==> RejectsAsWritten(imageCountOdd)
      ensures result == MustBeOdd ==> log.events == old(log.events)
      ensures result.Files? ==> result.paths == FramePaths(directory, row, col, Max(imageCountOdd, 1))
      ensures result.Files? ==>
        log.events == old(log.events) + LegacyStackTrace(StackOffset(stepSizeMm, imageCountOdd / 2), stepSizeMm, result.paths)
    {
      if imageCountOdd / 2 == 0 {
        return MustBeOdd;
      }
      var zOffset := StackOffset(stepSizeMm, imageCountOdd / 2);
      var names := TakeLegacyStack(zOffset, stepSizeMm, imageCountOdd, row, col);
      return Files(names);
    }

    /** capture_images_multiple_distances with the guard it evidently
        intends: any count that is not a positive odd number is turned away,
        and every stack it takes returns the camera to where it started
        (StackReturnsHome). */
    method CaptureImagesMultipleDistances(stepSizeMm: real, imageCountOdd: int, row: int, col: int)
      returns (result: StackResult)
      modifies log
      ensures result == MustBeOdd <==> Rejects(imageCountOdd)
      ensures result == MustBeOdd ==> log.events == old(log.events)
      ensures result.Files? ==> result.paths == FramePaths(directory, row, col, imageCountOdd)
      ensures result.Files? ==>
        log.events == old(log.events) + LegacyStackTrace(StackOffset(stepSizeMm, imageCountOdd / 2), stepSizeMm, result.paths)
    {
      if imageCountOdd < 1 || imageCountOdd % 2 == 0 {
        return MustBeOdd;
      }
      var zOffset := StackOffset(stepSizeMm, imageCountOdd / 2);
      var names := TakeLegacyStack(zOffset, stepSizeMm, imageCountOdd, row, col);
      return Files(names);
    }

    /** The body of capture_grid_photos' inner loop: the stack at the
        col-th cell of the row in serpentine order, the X jog in the row's
        direction, and the push of the stack's names. */
    method CaptureAndStep(row: int, col: int, cols: int, xDist: real)
      requires gantry.feedRateZ == 15
      modifies log
      ensures log.events == old(log.events) + CaptureStep(GridFiles(directory), row, cols, xDist, col)
    {
      // odd rows go left, even rows go right
      var c := if row % 2 == 1 then cols - col - 1 else col;
      assert c == CaptureCol(row, col, cols);
      ghost var e0 := log.events;
      var imgs := CaptureImagesMultipleDistancesNew(GridFrames, gantry.feedRateZ, 1.0, 0.2, row, c);
      ghost var e1 := e0 + CellStack(imgs.value);
      assert log.events == e1;
      JogX(if row % 2 == 1 then -xDist else xDist);
      log.Append(Put(Batch(imgs.value)));
      assert log.events == e1 + [Move(X, XJog(row, xDist))] + [Put(Batch(imgs.value))];
      AppendStep(e0, CellStack(imgs.value), Move(X, XJog(row, xDist)), Put(Batch(imgs.value)));
      CaptureStepAt(directory, row, cols, xDist, col);
    }

    /** The end of a row of capture_grid_photos: the stack at the row's
        last cell in serpentine order (column 0 on odd rows, cols - 1 on
        even rows), its push, and the jog of -y_dist. */
    method FinishRow(row: int, cols: int, yDist: real)
      requires gantry.feedRateZ == 15
      modifies log
      ensures log.events == old(log.events) + RowEnd(GridFiles(directory), row, cols, yDist)
    {
      // the row's last photo: column 0 on odd rows, cols - 1 on even rows
      var c := if row % 2 == 1 then 0 else cols - 1;
      assert c == CaptureCol(row, cols - 1, cols);
      ghost var e0 := log.events;
      var imgs := CaptureImagesMultipleDistancesNew(GridFrames, gantry.feedRateZ, 1.0, 0.2, row, c);
      ghost var e1 := e0 + CellStack(imgs.value);
      assert log.events == e1;
      log.Append(Put(Batch(imgs.value)));
      JogY(-yDist);
      assert log.events == e1 + [Put(Batch(imgs.value))] + [Move(Y, -yDist)];
      AppendStep(e0, CellStack(imgs.value), Put(Batch(imgs.value)), Move(Y, -yDist));
      RowEndAt(directory, row, cols, yDist);
    }

    /** One row of capture_grid_photos: cols - 1 stacks each followed by
        an X jog in the row's direction and a push of the stack's names,
        the last stack and its push, and the jog of -y_dist to the next
        row. */
    method CaptureRow(row: int, cols: int, yDist: real, xDist: real)
      requires gantry.feedRateZ == 15
      modifies log
      ensures log.events == old(log.events) + RowTrace(GridFiles(directory), row, cols, yDist, xDist)
    {
      ghost var e0 := log.events;
      CaptureRowSteps(row, cols, xDist);
      ghost var mid := log.events;
      FinishRow(row, cols, yDist);
      RowTraceSplit(e0, mid, GridFiles(directory), row, cols, yDist, xDist);
    }

    /** The stacks of one row but its last, each followed by its X jog */
    method CaptureRowSteps(row: int, cols: int, xDist: real)
      requires gantry.feedRateZ == 15
      modifies log
      ensures log.events == old(log.events) + RowSteps(GridFiles(directory), row, cols, xDist, cols - 1)
    {
      ghost var e0, files := log.events, GridFiles(directory);
      var col := 0;
      while col < cols - 1
        invariant 0 <= col <= Max(cols - 1, 0)
        invariant log.events == e0 + RowSteps(files, row, cols, xDist, col)
      {
        ghost var before := log.events;
        CaptureAndStep(row, col, cols, xDist);
        RowStepsSnoc(e0, before, files, row, cols, xDist, col);
        col := col + 1;
      }
      RowStepsDone(files, row, cols, xDist, col);
    }

    /** capture_grid_photos: slow feed, then row by row a 20-frame stack
        (range 1 mm, buffer 0.2 mm) at each cell in serpentine order, an X
        jog after every stack but the row's last, each stack's names pushed
        on the focus queue, a jog of -y_dist after every row, and finally
        the sentinel.  The pauses are not modelled. */
    method CaptureGridPhotos(rows: int, cols: int, yDist: real, xDist: real)
      modifies gantry, log
      ensures gantry.feedRateXY == 200 && gantry.feedRateZ == 15
      ensures gantry.feedRateFastXY == old(gantry.feedRateFastXY) && gantry.feedRateFastZ == old(gantry.feedRateFastZ)
      ensures gantry.s == old(gantry.s) && gantry.connected == old(gantry.connected)
      ensures gantry.cookieSamples == old(gantry.cookieSamples) && gantry.coreSamples == old(gantry.coreSamples)
      ensures log.events == old(log.events) + GridTrace(GridFiles(directory), rows, cols, yDist, xDist)
    {
      SetFeedRate(1);
      CaptureRows(rows, cols, yDist, xDist);
      log.Append(Put(Sentinel));
    }

    /** The rows of capture_grid_photos, one after another */
    method CaptureRows(rows: int, cols: int, yDist: real, xDist: real)
      requires gantry.feedRateZ == 15
      modifies log
      ensures log.events == old(log.events) + Rows(GridFiles(directory), cols, yDist, xDist, rows)
    {
      ghost var e0, files := log.events, GridFiles(directory);
      var row := 0;
      while row < rows
        invariant 0 <= row <= Max(rows, 0)
        invariant log.events == e0 + Rows(files, cols, yDist, xDist, row)
      {
        ghost var before := log.events;
        CaptureRow(row, cols, yDist, xDist);
        RowsSnoc(e0, before, files, cols, yDist, xDist, row);
        row := row + 1;
      }
      RowsDone(files, cols, yDist, xDist, row, rows);
    }
  }
}
