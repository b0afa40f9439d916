/** The size filter that keeps meaningful images and drops logos and decorations. */
module Images {

  /** The extractor's default minimum width and height in pixels. */
  const DefaultMinWidth: int := 150
  const DefaultMinHeight: int := 150

  /** The smallest encoded image, in bytes, worth keeping. */
  const MinBytes: int := 1000

  /**
   * `_is_meaningful_image`: reject images below the minimum size, tiny files
   * and images whose aspect ratio `width / height` lies outside [0.1, 10];
   * a non-positive height counts as aspect ratio 0. Ratios are exact rationals.
   */
  function IsMeaningfulImage(width: int, height: int, sizeBytes: int, minWidth: int, minHeight: int): (keep: bool)
    ensures keep ==> width >= minWidth && height >= minHeight && sizeBytes >= MinBytes
    ensures keep ==> height > 0
  {
    if width < minWidth || height < minHeight then false
    else if sizeBytes < MinBytes then false
    else
      var aspect: real := if height > 0 then width as real / height as real else 0.0;
      if aspect > 10.0 || aspect < 0.1 then false
      else true
  }

  /** The filter in integer terms: every rejection condition, and only those. */
  lemma MeaningfulExactly(width: int, height: int, sizeBytes: int, minWidth: int, minHeight: int)
    ensures IsMeaningfulImage(width, height, sizeBytes, minWidth, minHeight) <==>
      && width >= minWidth && height >= minHeight
      && sizeBytes >= MinBytes
      && height > 0
      && width <= 10 * height && height <= 10 * width
  {
    if width >= minWidth && height >= minHeight && sizeBytes >= MinBytes && height > 0 {
      RatioAbove(width as real, height as real, 10.0);
      RatioBelow(width as real, height as real, 0.1);
    }
  }

  lemma RatioAbove(w: real, h: real, k: real)
    requires h > 0.0
    ensures w / h > k <==> w > k * h
  {
    assert (w / h) * h == w;
    if w / h > k {
      assert (w / h) * h > k * h;
    }
  }

  lemma RatioBelow(w: real, h: real, k: real)
    requires h > 0.0
    ensures w / h < k <==> w < k * h
  {
    assert (w / h) * h == w;
    if w / h < k {
      assert (w / h) * h < k * h;
    }
  }

  /**
   * With the extractor's defaults, the boundary cases: a 150 by 1500 image
   * of 1000 bytes is kept, while one pixel less wide, one pixel taller or
   * one byte smaller is dropped.
   */
  lemma DefaultBoundaries()
    ensures IsMeaningfulImage(150, 1500, MinBytes, DefaultMinWidth, DefaultMinHeight)
    ensures !IsMeaningfulImage(149, 1490, MinBytes, DefaultMinWidth, DefaultMinHeight)
    ensures !IsMeaningfulImage(150, 1501, MinBytes, DefaultMinWidth, DefaultMinHeight)
    ensures !IsMeaningfulImage(150, 1500, MinBytes - 1, DefaultMinWidth, DefaultMinHeight)
  {
  }

  /** A zero-height image has aspect ratio 0 and is always dropped. */
  lemma ZeroHeightRejected(width: int, sizeBytes: int, minWidth: int, minHeight: int)
    ensures !IsMeaningfulImage(width, 0, sizeBytes, minWidth, minHeight)
  {
  }

  /** A larger file never turns an accepted image into a rejected one. */
  lemma MonotoneInSize(width: int, height: int, small: int, large: int, minWidth: int, minHeight: int)
    requires small <= large
    requires IsMeaningfulImage(width, height, small, minWidth, minHeight)
    ensures IsMeaningfulImage(width, height, large, minWidth, minHeight)
  {
  }
}
