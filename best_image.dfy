/** The running argmax the focus code uses to pick the sharpest image of a
    stack: scan in order, keep an image only when its score is strictly
    greater than the best so far, start from a best score of 0.0, and
    answer "nothing" (the empty list in the source) when no score is
    positive.  The image-processing score is a parameter. */
module Selection {
  import opened PyNum

  /** Item i has the highest score, that score beats the starting best of
      0.0, and every item before it scores strictly less */
  predicate IsFirstBest<T>(items: seq<T>, score: T -> real, i: int)
  {
    && 0 <= i < |items|
    && score(items[i]) > 0.0
    && (forall k :: 0 <= k < |items| ==> score(items[k]) <= score(items[i]))
    && (forall k :: 0 <= k < i ==> score(items[k]) < score(items[i]))
  }

  /** No item scores above the starting best */
  predicate NoneAbove<T>(items: seq<T>, score: T -> real)
  {
    forall k :: 0 <= k < |items| ==> score(items[k]) <= 0.0
  }

  /** The scan: the result is empty exactly when no score is positive, and
      otherwise it is the earliest item with the highest score. */
  method BestBy<T>(items: seq<T>, score: T -> real) returns (best: Option<T>)
    ensures best.None? <==> NoneAbove(items, score)
    ensures best.Some? ==> exists i :: IsFirstBest(items, score, i) && best.value == items[i]
  {
    best := None;
    var bestScore := 0.0;
    ghost var at := -1;
    for n := 0 to |items|
      invariant best.None? <==> at == -1
      invariant at == -1 ==> bestScore == 0.0 && NoneAbove(items[..n], score)
      invariant at != -1 ==> && 0 <= at < n
                             && best == Some(items[at])
                             && bestScore == score(items[at]) > 0.0
                             && (forall k :: 0 <= k < n ==> score(items[k]) <= bestScore)
                             && (forall k :: 0 <= k < at ==> score(items[k]) < bestScore)
    {
      var s := score(items[n]);
      if s > bestScore {
        bestScore := s;
        best := Some(items[n]);
        at := n;
      }
    }
    assert items[..|items|] == items;
    if at != -1 {
      assert IsFirstBest(items, score, at);
    }
  }

  /** There is at most one earliest best item. */
  lemma FirstBestUnique<T>(items: seq<T>, score: T -> real, i: int, j: int)
    requires IsFirstBest(items, score, i) && IsFirstBest(items, score, j)
    ensures i == j
  {
  }

  /** An earliest best item exists exactly when some score is positive. */
  lemma {:induction false} FirstBestExists<T>(items: seq<T>, score: T -> real)
    requires !NoneAbove(items, score)
    ensures exists i :: IsFirstBest(items, score, i)
    decreases |items|
  {
    var last := |items| - 1;
    var before := items[..last];
    if NoneAbove(before, score) {
      assert score(items[last]) > 0.0;
      if last == 0 {
        assert IsFirstBest(items, score, 0);
      } else {
        assert forall k :: 0 <= k < last ==> score(items[k]) == score(before[k]);
        assert IsFirstBest(items, score, last);
      }
    } else {
      FirstBestExists(before, score);
      var i :| IsFirstBest(before, score, i);
      assert forall k :: 0 <= k < last ==> score(items[k]) == score(before[k]);
      if score(items[last]) > score(items[i]) {
        assert IsFirstBest(items, score, last);
      } else {
        assert IsFirstBest(items, score, i);
      }
    }
  }
}

/** focus.py: the Focus helper scores each image by the variance of the
    Laplacian of its Gaussian-blurred copy (both windows 5 wide). */
module Focus {
  import opened PyNum
  import opened Selection

  const KernelSize: int := 5
  const BlurSize: int := 5

  /** The focus measure: `laplacianVariance(image, blur, kernel)` stands for
      OpenCV's blur-then-Laplacian variance with those window sizes. */
  function FocusScore<Image>(laplacianVariance: (Image, int, int) -> real): Image -> real
  {
    image => laplacianVariance(image, BlurSize, KernelSize)
  }

  /** The sharpest image of the list, or nothing when the list is empty or
      no image scores above 0.0 */
  method BestFocusedImage<Image>(images: seq<Image>, laplacianVariance: (Image, int, int) -> real)
    returns (best: Option<Image>)
    ensures best.None? <==> forall k :: 0 <= k < |images| ==> laplacianVariance(images[k], BlurSize, KernelSize) <= 0.0
    ensures best.Some? ==> exists i :: && 0 <= i < |images| && best.value == images[i]
                                       && (forall k :: 0 <= k < |images| ==>
                                             laplacianVariance(images[k], BlurSize, KernelSize) <= laplacianVariance(images[i], BlurSize, KernelSize))
                                       && (forall k :: 0 <= k < i ==>
                                             laplacianVariance(images[k], BlurSize, KernelSize) < laplacianVariance(images[i], BlurSize, KernelSize))
  {
    best := BestBy(images, FocusScore(laplacianVariance));
  }
}

/** laplacian_test.py: the score is taken on the colour-masked copy of each
    image, but the image returned is the original. */
module LaplacianTest {
  import opened PyNum
  import opened Selection

  /** The focus measure of an image: the Laplacian variance of its mask */
  function MaskedScore<Image>(hslMask: Image -> Image, laplacianVariance: Image -> real): Image -> real
  {
    image => laplacianVariance(hslMask(image))
  }

  method BestFocusedImage<Image>(images: seq<Image>, hslMask: Image -> Image, laplacianVariance: Image -> real)
    returns (best: Option<Image>)
    ensures best.None? <==> forall k :: 0 <= k < |images| ==> laplacianVariance(hslMask(images[k])) <= 0.0
    ensures best.Some? ==> exists i :: && 0 <= i < |images| && best.value == images[i]
                                       && (forall k :: 0 <= k < |images| ==>
                                             laplacianVariance(hslMask(images[k])) <= laplacianVariance(hslMask(images[i])))
                                       && (forall k :: 0 <= k < i ==>
                                             laplacianVariance(hslMask(images[k])) < laplacianVariance(hslMask(images[i])))
  {
    best := BestBy(images, MaskedScore(hslMask, laplacianVariance));
  }
}

/** focus_testng/focus_stack.py: the reference image of a stack is its
    sharpest frame by Laplacian variance. */
module FocusStack {
  import opened PyNum
  import opened Selection

  method BestLaplacian<Image>(images: seq<Image>, laplacianVariance: Image -> real)
    returns (best: Option<Image>)
    ensures best.None? <==> NoneAbove(images, laplacianVariance)
    ensures best.Some? ==> exists i :: IsFirstBest(images, laplacianVariance, i) && best.value == images[i]
  {
    best := BestBy(images, laplacianVariance);
  }
}
