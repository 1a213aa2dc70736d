/** The Z sweep of the autofocus script: walk from a start height to an end
    height in fixed steps, score the frame taken at each step, and report
    the height of the sharpest frame.  The camera and the focus measure are
    a parameter giving the score of the frame taken on each pass. */
module Autofocus {
  import opened PyNum

  datatype AutofocusError = ZeroDivision

  /** How many passes the sweep makes: one more than the ceiling of the
      span over the step.  Zero or fewer means none. */
  function Steps(startMm: real, endMm: real, stepSizeMm: real): (n: int)
    requires stepSizeMm != 0.0
    ensures (n - 2) as real < (endMm - startMm) / stepSizeMm <= (n - 1) as real
  {
    Ceil((endMm - startMm) / stepSizeMm) + 1
  }

  /** The height of pass `step` */
  function Position(startMm: real, stepSizeMm: real, step: int): real
  {
    startMm + step as real * stepSizeMm
  }

  /** Pass i has the highest score among passes 0 .. n-1, that score is
      positive, and every earlier pass scores strictly less */
  predicate IsFirstBestPass(n: int, focusScore: int -> real, i: int)
  {
    && 0 <= i < n
    && focusScore(i) > 0.0
    && (forall k :: 0 <= k < n ==> focusScore(k) <= focusScore(i))
    && (forall k :: 0 <= k < i ==> focusScore(k) < focusScore(i))
  }

  /** `focusScore(k)` is the score of the frame captured on pass k.  A zero
      step fails before any pass, as the division does in the source. */
  method GetBestFocus(startMm: real, endMm: real, stepSizeMm: real, focusScore: int -> real)
    returns (r: Result<real, AutofocusError>)
    ensures stepSizeMm == 0.0 <==> r == Err(ZeroDivision)
    ensures stepSizeMm != 0.0 ==>
      var n := Steps(startMm, endMm, stepSizeMm);
      && ((forall k :: 0 <= k < n ==> focusScore(k) <= 0.0) ==> r == Ok(0.0))
      && ((exists k :: 0 <= k < n && focusScore(k) > 0.0) ==>
            exists i :: IsFirstBestPass(n, focusScore, i) && r == Ok(Position(startMm, stepSizeMm, i)))
  {
    if stepSizeMm == 0.0 {
      return Err(ZeroDivision);
    }
    var bestFocusScore := 0.0;
    var bestFocusPosition := 0.0;
    var steps := Ceil((endMm - startMm) / stepSizeMm) + 1;
    ghost var at := -1;
    var step := 0;
    while step < steps
      invariant 0 <= step <= Max(steps, 0)
      invariant at == -1 ==> && bestFocusScore == 0.0 && bestFocusPosition == 0.0
                             && forall k :: 0 <= k < step ==> focusScore(k) <= 0.0
      invariant at != -1 ==> && 0 <= at < step
                             && bestFocusPosition == Position(startMm, stepSizeMm, at)
                             && bestFocusScore == focusScore(at) > 0.0
                             && (forall k :: 0 <= k < step ==> focusScore(k) <= bestFocusScore)
                             && (forall k :: 0 <= k < at ==> focusScore(k) < bestFocusScore)
      decreases steps - step
    {
      var position := Position(startMm, stepSizeMm, step);
      var score := focusScore(step);
      if score > bestFocusScore {
        bestFocusScore := score;
        bestFocusPosition := position;
        at := step;
      }
      step := step + 1;
    }
    if at != -1 {
      assert IsFirstBestPass(steps, focusScore, at);
    }
    r := Ok(bestFocusPosition);
  }

  /** Sweeping upwards over a non-empty span, the last pass reaches or
      passes the end height and the one before it falls short of it. */
  lemma SweepCoversSpan(startMm: real, endMm: real, stepSizeMm: real)
    requires stepSizeMm > 0.0 && startMm <= endMm
    ensures var n := Steps(startMm, endMm, stepSizeMm);
      && n >= 1
      && Position(startMm, stepSizeMm, n - 1) >= endMm
      && (n >= 2 ==> Position(startMm, stepSizeMm, n - 2) < endMm)
  {
    var n := Steps(startMm, endMm, stepSizeMm);
    var q := (endMm - startMm) / stepSizeMm;
    QuotientTimes(endMm - startMm, stepSizeMm, q);
    PassAbove(startMm, endMm, stepSizeMm, q, n - 1);
    if n >= 2 {
      PassBelow(startMm, endMm, stepSizeMm, q, n - 2);
    }
  }

  lemma PassAbove(startMm: real, endMm: real, stepSizeMm: real, q: real, m: int)
    requires stepSizeMm > 0.0 && q * stepSizeMm == endMm - startMm && q <= (m as real)
    ensures Position(startMm, stepSizeMm, m) >= endMm
  {
    MulLe(q, m as real, stepSizeMm);
  }

  lemma PassBelow(startMm: real, endMm: real, stepSizeMm: real, q: real, m: int)
    requires stepSizeMm > 0.0 && q * stepSizeMm == endMm - startMm && (m as real) < q
    ensures Position(startMm, stepSizeMm, m) < endMm
  {
    MulLt(m as real, q, stepSizeMm);
  }

  /** When the step divides the span k times exactly, the sweep makes k + 1
      passes and the last one lands on the end height. */
  lemma ExactSweepEndsAtEnd(startMm: real, stepSizeMm: real, k: nat)
    requires stepSizeMm != 0.0
    ensures var endMm := Position(startMm, stepSizeMm, k);
      && Steps(startMm, endMm, stepSizeMm) == k + 1
      && Position(startMm, stepSizeMm, Steps(startMm, endMm, stepSizeMm) - 1) == endMm
  {
    var endMm := Position(startMm, stepSizeMm, k);
    ProductQuotient(k as real, stepSizeMm, endMm - startMm);
  }
}
