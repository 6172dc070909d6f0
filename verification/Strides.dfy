/** The strides that gen_conv2d_int8 and gen_matmul_int8 write for a feature cube, and where
    the engine therefore fetches (src/npulib/npu_conv2d.c, npu_matmul.c). */
module Strides {
  import opened Layout

  /** line_stride of a cube w columns wide. */
  function LineStride(w: nat): int { w * 4 }

  /** surf_stride of a cube of h rows, the quotient h / 4 rounded down. */
  function SurfStride(h: nat, w: nat): int {
    var s := LineStride(w) * (h / 4 - 1);
    if s < 0 then s + 1 else s
  }

  /** Where lane c of a pixel is fetched, pixels numbered along the rows: 16-byte units one
      after another within a plane, line stride plus surface stride units to the next. */
  function StridedPlace(line: int, surf: int, pixel: int, c: int): int {
    c / 16 * (line + surf) * 16 + pixel * 16 + c % 16
  }

  /** The same for the element at row y and column x, by the strides of an h x w cube. */
  function EnginePlace(h: nat, w: nat, y: int, x: int, c: int): int {
    StridedPlace(LineStride(w), SurfStride(h, w), y * w + x, c)
  }

  /** Units from one plane to the next. */
  function PlaneUnits(h: nat, w: nat): nat {
    MulLe(0, h / 4 * 4, 0, w);
    if h < 4 then 1 else h / 4 * 4 * w
  }

  /** The strides reach every element's place in the cube. */
  predicate InPlace(h: nat, w: nat, lanes: nat) { lanes <= 16 || h % 4 == 0 || h * w == 1 }

  lemma PlaneStride(h: nat, w: nat)
    requires w > 0
    ensures LineStride(w) + SurfStride(h, w) == PlaneUnits(h, w)
  {
    if h >= 4 {
      MulLe(0, w * 4, 0, h / 4 - 1);
      assert w * 4 * (h / 4 - 1) == h / 4 * 4 * w - w * 4;
    }
  }

  lemma PlaneWhole(h: nat, w: nat)
    requires h > 0 && w > 0
    ensures 0 < PlaneUnits(h, w) <= h * w
    ensures PlaneUnits(h, w) == h * w <==> h % 4 == 0 || h * w == 1
  {
    MulLe(1, h, 1, w);
    if h >= 4 {
      MulLe(h / 4 * 4, h, w, w);
      MulLe(4, h / 4 * 4, 1, w);
      if h % 4 != 0 { Step(h / 4 * 4, h, w); }
    }
  }

  /** Place of the same element by the layout: planes of h * w units. */
  lemma LayoutPlace(h: nat, w: nat, y: int, x: int, c: int)
    ensures FeatureData(h, w, 16, c + 1, y + 1, x + 1) == StridedPlace(0, h * w, y * w + x, c)
  {
    assert c / 16 * h * w == c / 16 * (h * w);
  }

  lemma PlanesDiffer(line: int, surf: int, units: int, pixel: int, c: int)
    ensures line + surf == units ==> StridedPlace(line, surf, pixel, c) == StridedPlace(0, units, pixel, c)
    ensures 0 <= c < 16 ==> StridedPlace(line, surf, pixel, c) == StridedPlace(0, units, pixel, c)
    ensures 16 <= c < 32 && line + surf != units ==> StridedPlace(line, surf, pixel, c) != StridedPlace(0, units, pixel, c)
  {
  }

  /** One element is fetched from its place. */
  lemma FetchInPlace(h: nat, w: nat, lanes: nat, y: int, x: int, c: int)
    requires InPlace(h, w, lanes) && 0 <= y < h && 0 <= x < w && 0 <= c < lanes
    ensures EnginePlace(h, w, y, x, c) == FeatureData(h, w, 16, c + 1, y + 1, x + 1)
  {
    PlaneStride(h, w);
    PlaneWhole(h, w);
    LayoutPlace(h, w, y, x, c);
    PlanesDiffer(LineStride(w), SurfStride(h, w), h * w, y * w + x, c);
  }

  /** In any other cube no element of the second plane is. */
  lemma FetchOutOfPlace(h: nat, w: nat, y: int, x: int, c: int)
    requires h > 0 && w > 0 && !InPlace(h, w, 17) && 16 <= c < 32
    ensures EnginePlace(h, w, y, x, c) != FeatureData(h, w, 16, c + 1, y + 1, x + 1)
  {
    PlaneStride(h, w);
    PlaneWhole(h, w);
    LayoutPlace(h, w, y, x, c);
    PlanesDiffer(LineStride(w), SurfStride(h, w), h * w, y * w + x, c);
  }

  /** Every lane of every pixel is fetched from its place in the cube exactly when the
      height is a multiple of 4, the cube is a single pixel, or all lanes lie in one plane. */
  lemma FetchInPlaceIff(h: nat, w: nat, lanes: nat)
    requires h > 0 && w > 0
    ensures (forall y, x, c :: 0 <= y < h && 0 <= x < w && 0 <= c < lanes ==>
               EnginePlace(h, w, y, x, c) == FeatureData(h, w, 16, c + 1, y + 1, x + 1))
       <==> InPlace(h, w, lanes)
  {
    hide EnginePlace, FeatureData;
    if InPlace(h, w, lanes) {
      forall y, x, c | 0 <= y < h && 0 <= x < w && 0 <= c < lanes
        ensures EnginePlace(h, w, y, x, c) == FeatureData(h, w, 16, c + 1, y + 1, x + 1)
      {
        FetchInPlace(h, w, lanes, y, x, c);
      }
    } else {
      FetchOutOfPlace(h, w, 0, 0, 16);
      assert EnginePlace(h, w, 0, 0, 16) != FeatureData(h, w, 16, 16 + 1, 0 + 1, 0 + 1);
    }
  }
}
