/** Transposed convolution (src/npulib/npu_deconv.c): the scatter-add reference, and its
    lowering to a stride-1 convolution over the dilated input with a flipped kernel. */
module Deconv {
  import opened Sums
  import opened Layout
  import opened Scatter
  import opened Conv

  datatype Params = Params(inH: nat, inW: nat, inC: nat, outC: nat, kh: nat, kw: nat, strideH: nat, strideW: nat,
                           padTop: nat, padLeft: nat, padBottom: nat, padRight: nat, opH: nat, opW: nat)
  {
    /** The fields hold 8-bit and 16-bit values; dilation needs nonzero sizes and strides. */
    predicate Valid() {
      && 0 < inH < 65536 && 0 < inW < 65536 && 0 < inC < 65536 && 0 < outC < 65536
      && 0 < kh < 256 && 0 < kw < 256 && 0 < strideH < 256 && 0 < strideW < 256
      && padTop < 256 && padLeft < 256 && padBottom < 256 && padRight < 256 && opH < 256 && opW < 256
    }
    function OutH(): int { (inH - 1) * strideH - (padTop + padBottom) + kh + opH }
    function OutW(): int { (inW - 1) * strideW - (padLeft + padRight) + kw + opW }
    function DilatedH(): int { (inH - 1) * strideH + 1 }
    function DilatedW(): int { (inW - 1) * strideW + 1 }
    function ConvPadTop(): int { kh - 1 - padTop }
    function ConvPadBottom(): int { kh - 1 - padBottom + opH }
    function ConvPadLeft(): int { kw - 1 - padLeft }
    function ConvPadRight(): int { kw - 1 - padRight + opW }
  }

  function Align4(x: int): int { (x + 3) / 4 * 4 }

  /** gen_deconv_int8: the equivalent convolution, its fields narrowed as the C struct
      narrows them. */
  function GenDeconv(p: Params): Outcome
    requires p.Valid()
  {
    if p.ConvPadTop() < 0 || p.ConvPadBottom() < 0 || p.ConvPadLeft() < 0 || p.ConvPadRight() < 0 then Rejected(-3)
    else Descriptor(Geometry(Align4(p.DilatedH()) % 65536, Align4(p.DilatedW()) % 65536, p.inC, p.outC, p.kh, p.kw, 1, 1,
                             p.ConvPadTop() % 256, p.ConvPadLeft() % 256, p.ConvPadBottom() % 256, p.ConvPadRight() % 256))
  }

  /** deconv_weight, 1-based channels. */
  function DeconvWeight(p: Params, co: int, ci: int, ki: int, kj: int): int {
    Conv2dWeight(p.inC, p.kh, p.kw, co, ci, p.kh - 1 - ki, p.kw - 1 - kj)
  }

  // ---------------------------------------------------------------- what it computes

  /** What input pixel (ci, hi, wi) contributes through kernel element (ki, kj). */
  type Meeting = (int, int, int, int, int) -> int

  function Products(x: Image, w: Kernel, co: int): Meeting {
    (ci, hi, wi, ki, kj) => x(ci, hi, wi) * w(ci, co, ki, kj)
  }

  /** One spatial axis seen from one output position: `row` maps each of the n input
      indices to the kernel index through which it arrives, `grid` maps each of the k
      kernel indices to the input index it meets; out of range when there is none. */
  datatype Axis = Axis(n: nat, k: nat, row: int -> int, grid: int -> int)

  ghost predicate Matched(a: Axis) {
    forall h, t :: 0 <= h < a.n && 0 <= t < a.k ==> (a.row(h) == t <==> a.grid(t) == h)
  }

  /** Input side: what input pixel (h, q) adds to the output position. */
  function Tap(a: Axis, b: Axis, f: Meeting): (int, int, int) -> int {
    (ci, h, q) => if 0 <= a.row(h) < a.k && 0 <= b.row(q) < b.k then f(ci, h, q, a.row(h), b.row(q)) else 0
  }

  /** Kernel side: what kernel element (t, u) picks up for the output position. */
  function Pick(a: Axis, b: Axis, f: Meeting): (int, int, int) -> int {
    (ci, t, u) => if 0 <= a.grid(t) < a.n && 0 <= b.grid(u) < b.n then f(ci, a.grid(t), b.grid(u), t, u) else 0
  }

  /** Position y of an axis dilated by s holds original element y / s, for y on the grid. */
  predicate OnGrid(n: nat, s: nat, y: int) requires s > 0 { 0 <= y && y % s == 0 && y / s < n }

  function AxisAt(n: nat, k: nat, s: nat, c: int): Axis
    requires s > 0
  {
    Axis(n, k, h => c - h * s, t => if OnGrid(n, s, c - t) then (c - t) / s else -1)
  }

  function RowAxis(p: Params, ho: int): Axis requires p.strideH > 0 { AxisAt(p.inH, p.kh, p.strideH, ho + p.padTop) }
  function ColAxis(p: Params, wo: int): Axis requires p.strideW > 0 { AxisAt(p.inW, p.kw, p.strideW, wo + p.padLeft) }

  /** The scatter-add sum arriving at output (co, ho, wo). */
  function Scattered(p: Params, x: Image, w: Kernel, co: int, ho: int, wo: int): int
    requires p.strideH > 0 && p.strideW > 0
  {
    Sum3(p.inC, p.inH, p.inW, Tap(RowAxis(p, ho), ColAxis(p, wo), Products(x, w, co)))
  }

  // ---------------------------------------------------------------- one axis

  lemma GridDigits(s: nat, y: int, h: int)
    requires s > 0
    ensures h * s == y <==> y % s == 0 && h == y / s
    ensures y % s == 0 && y < 0 ==> y / s < 0
  {
    DivMod(y, s);
    if h * s == y { Digits(s, h, 0, y / s, y % s); }
  }

  lemma AxisMatched(n: nat, k: nat, s: nat, c: int)
    requires s > 0
    ensures Matched(AxisAt(n, k, s, c))
  {
    var a := AxisAt(n, k, s, c);
    forall h, t | 0 <= h < a.n && 0 <= t < a.k ensures a.row(h) == t <==> a.grid(t) == h {
      var y := c - t;
      GridDigits(s, y, h);
      assert a.row(h) == c - h * s && a.grid(t) == if OnGrid(n, s, y) then y / s else -1;
      assert h * s >= 0;
    }
  }

  function Gather(a: Axis, f: (int, int) -> int): int -> int {
    t => if 0 <= a.grid(t) < a.n then f(a.grid(t), t) else 0
  }

  function ScatterTo(a: Axis, f: (int, int) -> int): int -> int {
    h => if 0 <= a.row(h) < a.k then f(h, a.row(h)) else 0
  }

  function Pairs(a: Axis, f: (int, int) -> int): (int, int) -> int {
    (t, h) => if a.grid(t) == h then f(h, t) else 0
  }

  /** Summing over kernel indices what each meets is summing over input indices what each
      arrives through. */
  lemma GatherIsScatter(a: Axis, f: (int, int) -> int)
    requires Matched(a)
    ensures Sum(a.k, Gather(a, f)) == Sum(a.n, ScatterTo(a, f))
  {
    var g := Pairs(a, f);
    forall t | 0 <= t < a.k ensures Gather(a, f)(t) == Rows(a.n, g)(t) { SumOne(a.n, h => g(t, h), a.grid(t)); }
    SumCong(a.k, Gather(a, f), Rows(a.n, g));
    SumSwap(a.k, a.n, g);
    forall h | 0 <= h < a.n ensures Columns(a.k, g)(h) == ScatterTo(a, f)(h) { SumOne(a.k, t => g(t, h), a.row(h)); }
    SumCong(a.n, Columns(a.k, g), ScatterTo(a, f));
  }

  // ---------------------------------------------------------------- two axes and channels

  /** Input row h against kernel row t: one axis left. */
  function Across(f: Meeting, ci: int, h: int, t: int): (int, int) -> int { (q, u) => f(ci, h, q, t, u) }

  function RowPair(b: Axis, f: Meeting, ci: int): (int, int) -> int {
    (h, t) => Sum(b.n, ScatterTo(b, Across(f, ci, h, t)))
  }

  lemma PickedRow(a: Axis, b: Axis, f: Meeting, ci: int, t: int)
    requires Matched(b)
    ensures Line(b.k, Pick(a, b, f), ci, t) == Gather(a, RowPair(b, f, ci))(t)
  {
    var cells := Cells(Pick(a, b, f), ci, t);
    if 0 <= a.grid(t) < a.n {
      var across := Across(f, ci, a.grid(t), t);
      SumCong(b.k, cells, Gather(b, across));
      GatherIsScatter(b, across);
    } else {
      SumZero(b.k, cells);
    }
  }

  lemma TappedRow(a: Axis, b: Axis, f: Meeting, ci: int, h: int)
    ensures Line(b.n, Tap(a, b, f), ci, h) == ScatterTo(a, RowPair(b, f, ci))(h)
  {
    var cells := Cells(Tap(a, b, f), ci, h);
    if 0 <= a.row(h) < a.k {
      SumCong(b.n, cells, ScatterTo(b, Across(f, ci, h, a.row(h))));
    } else {
      SumZero(b.n, cells);
    }
  }

  lemma PickIsTap(n: nat, a: Axis, b: Axis, f: Meeting)
    requires Matched(a) && Matched(b)
    ensures Sum3(n, a.k, b.k, Pick(a, b, f)) == Sum3(n, a.n, b.n, Tap(a, b, f))
  {
    var picked, tapped := Planes(a.k, b.k, Pick(a, b, f)), Planes(a.n, b.n, Tap(a, b, f));
    forall ci | 0 <= ci < n ensures picked(ci) == tapped(ci) {
      var rows := RowPair(b, f, ci);
      forall t | 0 <= t < a.k ensures Lines(b.k, Pick(a, b, f), ci)(t) == Gather(a, rows)(t) { PickedRow(a, b, f, ci, t); }
      forall h | 0 <= h < a.n ensures Lines(b.n, Tap(a, b, f), ci)(h) == ScatterTo(a, rows)(h) { TappedRow(a, b, f, ci, h); }
      SumCong(a.k, Lines(b.k, Pick(a, b, f), ci), Gather(a, rows));
      GatherIsScatter(a, rows);
      SumCong(a.n, Lines(b.n, Tap(a, b, f), ci), ScatterTo(a, rows));
    }
    SumCong(n, picked, tapped);
  }

  // ---------------------------------------------------------------- the lowering

  /** The input with strideH - 1 zero rows and strideW - 1 zero columns between elements,
      and zeros all around. */
  function Dilated(p: Params, x: Image): Image
    requires p.strideH > 0 && p.strideW > 0
  {
    (ci, y, c) =>
      if OnGrid(p.inH, p.strideH, y) && OnGrid(p.inW, p.strideW, c) then x(ci, y / p.strideH, c / p.strideW) else 0
  }

  /** Rotated by 180 degrees, channel roles exchanged. */
  function Flipped(p: Params, w: Kernel): Kernel { (co, ci, i, j) => w(ci, co, p.kh - 1 - i, p.kw - 1 - j) }

  ghost predicate Lowers(p: Params, g: Geometry) {
    && p.strideH > 0 && p.strideW > 0 && g.inC == p.inC && g.kh == p.kh && g.kw == p.kw
    && g.strideH == 1 && g.strideW == 1 && g.padTop == p.kh - 1 - p.padTop && g.padLeft == p.kw - 1 - p.padLeft
  }

  lemma PickAt(p: Params, g: Geometry, x: Image, w: Kernel, co: int, ci: int, ho: int, wo: int, i: int, j: int, t: int, u: int)
    requires Lowers(p, g) && t == p.kh - 1 - i && u == p.kw - 1 - j
    ensures Product(g, Dilated(p, x), Flipped(p, w), co, ho, wo)(ci, i, j)
         == Pick(RowAxis(p, ho), ColAxis(p, wo), Products(x, w, co))(ci, t, u)
  {
    var (y, c) := (ho + p.padTop - t, wo + p.padLeft - u);
    assert ho * g.strideH == ho && wo * g.strideW == wo;
    assert Product(g, Dilated(p, x), Flipped(p, w), co, ho, wo)(ci, i, j) == Dilated(p, x)(ci, y, c) * w(ci, co, t, u);
    assert RowAxis(p, ho).grid(t) == if OnGrid(p.inH, p.strideH, y) then y / p.strideH else -1;
    assert ColAxis(p, wo).grid(u) == if OnGrid(p.inW, p.strideW, c) then c / p.strideW else -1;
    DivMod(y, p.strideH);
    DivMod(c, p.strideW);
  }

  /** The lowering on images and kernels: every output pixel of the transposed convolution
      is the same pixel of the stride-1 convolution. */
  lemma LoweringIsScatter(p: Params, g: Geometry, x: Image, w: Kernel, co: int, ho: int, wo: int)
    requires Lowers(p, g)
    ensures Convolve(g, Dilated(p, x), Flipped(p, w), co, ho, wo) == Scattered(p, x, w, co, ho, wo)
  {
    hide Products, Dilated, Flipped, Product, Pick;
    var a, b, f := RowAxis(p, ho), ColAxis(p, wo), Products(x, w, co);
    var lowered := Product(g, Dilated(p, x), Flipped(p, w), co, ho, wo);
    forall ci, i, j | 0 <= ci < p.inC && 0 <= i < p.kh && 0 <= j < p.kw
      ensures lowered(ci, i, j) == Pick(a, b, f)(ci, p.kh - 1 - i, p.kw - 1 - j)
    {
      PickAt(p, g, x, w, co, ci, ho, wo, i, j, p.kh - 1 - i, p.kw - 1 - j);
    }
    Sum3Flip(p.inC, p.kh, p.kw, Pick(a, b, f), lowered);
    AxisMatched(p.inH, p.kh, p.strideH, ho + p.padTop);
    AxisMatched(p.inW, p.kw, p.strideW, wo + p.padLeft);
    PickIsTap(p.inC, a, b, f);
  }
}
