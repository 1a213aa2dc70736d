/** The cookie record: a round sample's bounding size, the overlap wanted
    between neighbouring images, and where on the stage its corner sits. */
module Cookies {
  import opened PyNum

  class Cookie {
    const width: real
    const height: real
    const percentOverlap: real
    /** (None, None) until the sample has been located */
    var startPoint: (Option<real>, Option<real>)

    /** The overlap defaults to 20 percent in the source; callers pass it. */
    constructor (width: real, height: real, percentOverlap: real)
      ensures this.width == width && this.height == height && this.percentOverlap == percentOverlap
      ensures startPoint == (None, None)
    {
      this.width := width;
      this.height := height;
      this.percentOverlap := percentOverlap;
      startPoint := (None, None);
    }

    /** Records the top-left corner; nothing else about the cookie changes
        (its size and overlap are constants). */
    method SetLocation(topLeft: (real, real))
      modifies this
      ensures startPoint == (Some(topLeft.0), Some(topLeft.1))
    {
      startPoint := (Some(topLeft.0), Some(topLeft.1));
    }
  }

  /** The overlap a cookie gets when none is given */
  const DefaultPercentOverlap: real := 20.0
}
