/** The band tiling used to measure focus across an image: a horizontal band
    centred on the middle row, cut into a number of tiles of (nearly) equal
    width.  An image is a rectangle of pixels given row by row. */
module Alignment {
  import opened PyNum

  /** An image of `h` rows of `w` pixels; `h` and `w` are the array's shape,
      which is kept even when there are no rows */
  datatype Image<P> = Image(h: nat, w: nat, pixels: seq<seq<P>>)

  predicate ValidImage<P>(img: Image<P>)
  {
    && |img.pixels| == img.h
    && forall r :: 0 <= r < img.h ==> |img.pixels[r]| == img.w
  }

  /** numpy refuses a negative number of samples */
  datatype AlignmentError = NegativeSampleCount

  /** The tiles, the band's row bounds, and the column breaks */
  datatype BandGrid<P> = BandGrid(tiles: seq<seq<seq<P>>>, yStart: int, yEnd: int, xBreaks: seq<int>)

  /** Half the band height: the fraction of the height, halved and
      truncated toward zero */
  function BandHalf(h: nat, bandHeightFrac: real): int
  {
    Trunc(h as real * bandHeightFrac / 2.0)
  }

  function BandStart(h: nat, bandHeightFrac: real): int
  {
    Max(h / 2 - BandHalf(h, bandHeightFrac), 0)
  }

  function BandEnd(h: nat, bandHeightFrac: real): int
  {
    Min(h / 2 + BandHalf(h, bandHeightFrac), h)
  }

  /** Break k of n equal divisions of 0 .. w, truncated to an integer */
  function Break(w: nat, n: nat, k: nat): (b: int)
    requires 0 < n && k <= n
    ensures 0 <= b <= w
    ensures k == 0 ==> b == 0
    ensures k == n ==> b == w
  {
    BreakBounds(w, n, k);
    k * w / n
  }

  /** np.linspace(0, w, count + 1, dtype=int) for count >= -1 */
  function Linspace(w: nat, count: int): (xs: seq<int>)
    requires count >= -1
    ensures |xs| == count + 1
  {
    if count <= 0 then (if count == 0 then [0] else [])
    else seq(count + 1, k requires 0 <= k <= count => Break(w, count, k))
  }

  /** image[yStart:yEnd, x0:x1] */
  function Tile<P>(img: Image<P>, yStart: int, yEnd: int, x0: int, x1: int): seq<seq<P>>
  {
    var rows := PySlice(img.pixels, yStart, yEnd);
    seq(|rows|, r requires 0 <= r < |rows| => PySlice(rows[r], x0, x1))
  }

  /** The tiling; a sample count below zero fails as numpy does. */
  method CenterBandGrid<P>(image: Image<P>, nCol: int, bandHeightFrac: real)
    returns (r: Result<BandGrid<P>, AlignmentError>)
    requires ValidImage(image)
    ensures r.Err? <==> nCol < -1
    ensures r.Ok? ==> var g := r.value;
      && g.yStart == BandStart(image.h, bandHeightFrac)
      && g.yEnd == BandEnd(image.h, bandHeightFrac)
      && 0 <= g.yStart && g.yEnd <= image.h
      && g.xBreaks == Linspace(image.w, nCol)
      && |g.tiles| == Max(nCol, 0)
      && forall c :: 0 <= c < |g.tiles| ==>
           g.tiles[c] == Tile(image, g.yStart, g.yEnd, g.xBreaks[c], g.xBreaks[c + 1])
  {
    var h, w := image.h, image.w;
    var bandHalf := BandHalf(h, bandHeightFrac);
    var cy := h / 2;
    var yStart := Max(cy - bandHalf, 0);
    var yEnd := Min(cy + bandHalf, h);
    if nCol + 1 < 0 {
      return Err(NegativeSampleCount);
    }
    var xBreaks := Linspace(w, nCol);
    var tiles: seq<seq<seq<P>>> := [];
    for c := 0 to Max(nCol, 0)
      invariant |tiles| == c
      invariant forall k :: 0 <= k < c ==> tiles[k] == Tile(image, yStart, yEnd, xBreaks[k], xBreaks[k + 1])
    {
      var x0, x1 := xBreaks[c], xBreaks[c + 1];
      var tile := Tile(image, yStart, yEnd, x0, x1);
      tiles := tiles + [tile];
    }
    r := Ok(BandGrid(tiles, yStart, yEnd, xBreaks));
  }

  // ---------------------------------------------------------------------
  // Properties of the bounds
  // ---------------------------------------------------------------------

  lemma BreakBounds(w: nat, n: nat, k: nat)
    requires 0 < n && k <= n
    ensures 0 <= k * w / n <= w
    ensures k == n ==> k * w / n == w
  {
    MulMonotone(k, n, w);
    DivMonotone(k * w, n * w, n);
    DivModUnique(n * w, n, w, 0);
  }

  /** The breaks run from 0 to w without ever going back. */
  lemma BreaksNondecreasing(w: nat, n: nat, i: nat, j: nat)
    requires 0 < n && i <= j <= n
    ensures Break(w, n, i) <= Break(w, n, j)
  {
    MulMonotone(i, j, w);
    DivMonotone(i * w, j * w, n);
  }

  /** With a non-negative fraction the band lies inside the image, starts no
      later than it ends, and is at most twice the half-height tall. */
  lemma BandInsideImage(h: nat, bandHeightFrac: real)
    requires bandHeightFrac >= 0.0
    ensures 0 <= BandStart(h, bandHeightFrac) <= BandEnd(h, bandHeightFrac) <= h
    ensures BandEnd(h, bandHeightFrac) - BandStart(h, bandHeightFrac) <= 2 * BandHalf(h, bandHeightFrac)
  {
    assert h as real * bandHeightFrac >= 0.0;
  }

  /** A band that fits inside the image is centred on row h // 2 and exactly
      twice the half-height tall. */
  lemma BandCentred(h: nat, bandHeightFrac: real)
    requires 0 <= BandHalf(h, bandHeightFrac) <= h / 2
    ensures h / 2 - BandStart(h, bandHeightFrac) == BandEnd(h, bandHeightFrac) - h / 2
      == BandHalf(h, bandHeightFrac)
  {
  }

  /** Inside the image a tile is the rectangle of its bounds, pixel for
      pixel. */
  lemma TileContents<P>(img: Image<P>, yStart: int, yEnd: int, x0: int, x1: int)
    requires ValidImage(img)
    requires 0 <= yStart <= yEnd <= img.h && 0 <= x0 <= x1 <= img.w
    ensures var t := Tile(img, yStart, yEnd, x0, x1);
      && |t| == yEnd - yStart
      && forall r :: 0 <= r < |t| ==> t[r] == img.pixels[yStart + r][x0..x1]
  {
  }

  /** Row r of the first c tiles, laid side by side */
  function Joined<P>(tiles: seq<seq<seq<P>>>, r: nat, c: nat): seq<P>
    requires c <= |tiles|
    requires forall k :: 0 <= k < |tiles| ==> r < |tiles[k]|
  {
    if c == 0 then [] else Joined(tiles, r, c - 1) + tiles[c - 1][r]
  }

  /** Breaks that start at column 0 and never go back inside a row of
      width w, one more than there are tiles */
  predicate BreaksAdvance(w: nat, breaks: seq<int>, count: nat)
  {
    && |breaks| == count + 1
    && breaks[0] == 0
    && (forall k :: 0 <= k <= count ==> 0 <= breaks[k] <= w)
    && (forall i, j :: 0 <= i <= j <= count ==> breaks[i] <= breaks[j])
  }

  /** The linspace breaks of a positive count advance from 0 and end at w. */
  lemma LinspaceAdvances(w: nat, nCol: nat)
    requires 0 < nCol
    ensures BreaksAdvance(w, Linspace(w, nCol), nCol)
    ensures Linspace(w, nCol)[nCol] == w
  {
    var xs := Linspace(w, nCol);
    forall i, j | 0 <= i <= j <= nCol
      ensures xs[i] <= xs[j]
    {
      BreaksNondecreasing(w, nCol, i, j);
    }
  }

  /** Laid side by side, the tiles of a valid image rebuild each row of the
      band from column 0 up to the c-th break. */
  lemma {:induction false} TilesRebuildBand<P>(image: Image<P>, yStart: int, yEnd: int, breaks: seq<int>,
                                               tiles: seq<seq<seq<P>>>, r: nat, c: nat)
    requires ValidImage(image) && 0 <= yStart <= yEnd <= image.h && r < yEnd - yStart
    requires BreaksAdvance(image.w, breaks, |tiles|) && c <= |tiles|
    requires forall k :: 0 <= k < |tiles| ==> tiles[k] == Tile(image, yStart, yEnd, breaks[k], breaks[k + 1])
    requires forall k :: 0 <= k < |tiles| ==> |tiles[k]| == yEnd - yStart
    ensures Joined(tiles, r, c) == image.pixels[yStart + r][..breaks[c]]
    decreases c
  {
    if c > 0 {
      TilesRebuildBand(image, yStart, yEnd, breaks, tiles, r, c - 1);
      var row := image.pixels[yStart + r];
      var x0, x1 := breaks[c - 1], breaks[c];
      TileContents(image, yStart, yEnd, x0, x1);
      assert row[..x0] + row[x0..x1] == row[..x1];
    }
  }

  /** The whole band: tiles cut at breaks that advance from 0 to w, laid
      side by side, give each band row entire (LinspaceAdvances shows the
      linspace breaks are such breaks). */
  lemma TilesCoverBand<P>(image: Image<P>, bandHeightFrac: real, g: BandGrid<P>, r: nat)
    requires ValidImage(image) && bandHeightFrac >= 0.0
    requires g.yStart == BandStart(image.h, bandHeightFrac) && g.yEnd == BandEnd(image.h, bandHeightFrac)
    requires r < g.yEnd - g.yStart
    requires BreaksAdvance(image.w, g.xBreaks, |g.tiles|) && g.xBreaks[|g.tiles|] == image.w
    requires forall k :: 0 <= k < |g.tiles| ==>
               g.tiles[k] == Tile(image, g.yStart, g.yEnd, g.xBreaks[k], g.xBreaks[k + 1])
    ensures forall k :: 0 <= k < |g.tiles| ==> |g.tiles[k]| == g.yEnd - g.yStart
    ensures Joined(g.tiles, r, |g.tiles|) == image.pixels[g.yStart + r]
  {
    BandInsideImage(image.h, bandHeightFrac);
    forall k | 0 <= k < |g.tiles|
      ensures |g.tiles[k]| == g.yEnd - g.yStart
    {
      TileContents(image, g.yStart, g.yEnd, g.xBreaks[k], g.xBreaks[k + 1]);
    }
    TilesRebuildBand(image, g.yStart, g.yEnd, g.xBreaks, g.tiles, r, |g.tiles|);
    assert image.pixels[g.yStart + r][..image.w] == image.pixels[g.yStart + r];
  }
}
