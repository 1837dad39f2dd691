/** A page raster as handed over by the PDF renderer, and its luma. */
module Raster {

  /** Luma is kept exact as the integer 299R + 587G + 114B, which is 1000
      times the source's floating-point `0.299R + 0.587G + 0.114B`; every
      threshold of the source is compared at the same scale. */
  const LumaScale: int := 1000
  const MaxLuma: int := 255 * LumaScale

  /** The split between dark and light pixels (luma 128). */
  predicate IsDark(l: int) {
    l < 128 * LumaScale
  }

  /** The alpha byte of each RGBA quadruple is never read by the core. */
  datatype Pixel = Pixel(r: int, g: int, b: int) {
    predicate Valid() {
      0 <= r <= 255 && 0 <= g <= 255 && 0 <= b <= 255
    }
  }

  function Luma(p: Pixel): (l: int)
    requires p.Valid()
    ensures 0 <= l <= MaxLuma
    ensures p.r == p.g == p.b ==> l == p.r * LumaScale
  {
    299 * p.r + 587 * p.g + 114 * p.b
  }

  lemma RowMajorIndex(w: int, h: int, x: int, y: int)
    requires 0 <= x < w && 0 <= y < h
    ensures 0 <= y * w + x < w * h
  {
    assert (y + 1) * w <= h * w by {
      var k := h - (y + 1);
      assert h * w == (y + 1) * w + k * w;
      assert k * w >= 0;
    }
  }

  /** `pixels[y * width + x]` is the pixel at column `x` of row `y`. */
  datatype Raster = Raster(width: int, height: int, pixels: seq<Pixel>) {

    predicate Valid() {
      && width > 0
      && height > 0
      && |pixels| == width * height
      && forall i :: 0 <= i < |pixels| ==> pixels[i].Valid()
    }

    predicate InBounds(x: int, y: int) {
      0 <= x < width && 0 <= y < height
    }

    function Lum(x: int, y: int): (l: int)
      requires Valid() && InBounds(x, y)
      ensures 0 <= l <= MaxLuma
    {
      RowMajorIndex(width, height, x, y);
      Luma(pixels[y * width + x])
    }
  }
}
