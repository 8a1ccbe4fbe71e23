/** The acceptance filter (src/metadata.rs): orientation and resolution tests
    on an image's pixel dimensions. Decoding the image is not modelled; the
    tests take the decoded width and height. Rust's `f32` arithmetic is
    modelled over exact reals. */
module Metadata {
  import opened Common

  /** The pixel dimensions of a decoded image. */
  datatype Image = Image(width: u32, height: u32)

  function Pixels(img: Image): nat
  {
    img.width * img.height
  }

  function Min(a: real, b: real): real { if a <= b then a else b }

  function Max(a: real, b: real): real { if a <= b then b else a }

  /** landscape: the image is not taller than its width allows, i.e. it is at
      least `coef` times as wide as it is high. */
  function Landscape(coef: real, img: Image): (r: bool)
    ensures r <==> img.width as real >= img.height as real * coef
  {
    !(img.height as real * coef > img.width as real)
  }

  /** With a coefficient of at least 1 (the range the startup check enforces)
      a landscape image is never taller than wide. */
  lemma LandscapeNotTaller(coef: real, img: Image)
    requires coef >= 1.0 && Landscape(coef, img)
    ensures img.width >= img.height
  {
    var h := img.height as real;
    assert h * (coef - 1.0) >= 0.0;
    assert h * coef >= h;
  }

  /** A square image (of at least one pixel) is landscape exactly when the
      coefficient is at most 1. */
  lemma SquareLandscape(coef: real, side: u32)
    requires side > 0
    ensures Landscape(coef, Image(side, side)) <==> coef <= 1.0
  {
    var s := side as real;
    if coef > 1.0 {
      assert s * coef > s * 1.0;
    } else {
      assert s * coef <= s * 1.0;
    }
  }

  /** qual_control: after putting the two bounds in order, the pixel count
      lies strictly between them (in millions of pixels). */
  function QualControl(minMps: real, maxMps: real, img: Image): (r: bool)
    ensures r <==> Min(minMps, maxMps) < Pixels(img) as real / 1_000_000.0 < Max(minMps, maxMps)
  {
    var (lo, hi) := if minMps > maxMps then (maxMps, minMps) else (minMps, maxMps);
    var mps := img.height as real * img.width as real;
    mps > lo * 1_000_000.0 && mps < hi * 1_000_000.0
  }

  /** The order of the two bounds does not matter. */
  lemma QualControlSymmetric(minMps: real, maxMps: real, img: Image)
    ensures QualControl(minMps, maxMps, img) == QualControl(maxMps, minMps, img)
  {
  }

  /** A pixel count exactly at either bound is rejected. */
  lemma QualControlBoundsExcluded(minMps: real, maxMps: real, img: Image)
    requires Pixels(img) as real == minMps * 1_000_000.0 || Pixels(img) as real == maxMps * 1_000_000.0
    ensures !QualControl(minMps, maxMps, img)
  {
  }

  /** Equal bounds leave an empty range: every image is rejected. */
  lemma QualControlEmptyRange(mps: real, img: Image)
    ensures !QualControl(mps, mps, img)
  {
  }

  /** Widening the range never rejects an image that was accepted. */
  lemma QualControlMonotone(lo: real, hi: real, lo': real, hi': real, img: Image)
    requires lo' <= lo && hi <= hi' && lo <= hi
    requires QualControl(lo, hi, img)
    ensures QualControl(lo', hi', img)
  {
  }

  /** With bounds of 1 and 20 megapixels, a 1920x1080 image (about 2.07 MP)
      passes whichever way round the bounds are given, and a 100x100 image
      (0.01 MP) does not. */
  lemma QualityScenario()
    ensures QualControl(1.0, 20.0, Image(1920, 1080))
    ensures !QualControl(1.0, 20.0, Image(100, 100))
    ensures QualControl(20.0, 1.0, Image(1920, 1080))
  {
  }
}
