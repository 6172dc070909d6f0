/** Direct convolution as the NPU performs it, and grouped convolution lowered to it
    (src/npulib/npu_conv2d.c).

    The hardware is a specification here: it multiplies what it finds where the descriptor's
    strides and `Conv2dWeight` point and adds up. */
module Conv {
  import opened Sums
  import opened Layout
  import opened Scatter
  import opened Strides

  /** The geometry that gen_conv2d_int8 hands to the engine. */
  datatype Geometry = Geometry(inH: nat, inW: nat, inC: nat, outC: nat, kh: nat, kw: nat,
                               strideH: nat, strideW: nat, padTop: nat, padLeft: nat, padBottom: nat, padRight: nat)
  {
    predicate Valid() {
      strideH > 0 && strideW > 0 && kh <= inH + padTop + padBottom && kw <= inW + padLeft + padRight
    }
    function OutH(): nat requires Valid() { (inH + padTop + padBottom - kh) / strideH + 1 }
    function OutW(): nat requires Valid() { (inW + padLeft + padRight - kw) / strideW + 1 }
  }

  /** A tensor or kernel as a total function of its 0-based indices. */
  type Image = (int, int, int) -> int
  type Kernel = (int, int, int, int) -> int

  function Cells(f: (int, int, int) -> int, i: int, j: int): int -> int { k => f(i, j, k) }

  function Line(l: nat, f: (int, int, int) -> int, i: int, j: int): int { Sum(l, Cells(f, i, j)) }

  function Lines(l: nat, f: (int, int, int) -> int, i: int): int -> int { j => Line(l, f, i, j) }

  function Plane(m: nat, l: nat, f: (int, int, int) -> int, i: int): int { Sum(m, Lines(l, f, i)) }

  function Sum3(n: nat, m: nat, l: nat, f: (int, int, int) -> int): int { Sum(n, Planes(m, l, f)) }

  function Planes(m: nat, l: nat, f: (int, int, int) -> int): int -> int { i => Plane(m, l, f, i) }

  lemma LineCong(l: nat, f: (int, int, int) -> int, i: int, j: int, g: (int, int, int) -> int, i': int, j': int)
    requires forall k :: 0 <= k < l ==> f(i, j, k) == g(i', j', k)
    ensures Line(l, f, i, j) == Line(l, g, i', j')
  {
    SumCong(l, Cells(f, i, j), Cells(g, i', j'));
  }

  lemma PlaneCong(m: nat, l: nat, f: (int, int, int) -> int, i: int, g: (int, int, int) -> int, i': int)
    requires forall j, k :: 0 <= j < m && 0 <= k < l ==> f(i, j, k) == g(i', j, k)
    ensures Plane(m, l, f, i) == Plane(m, l, g, i')
  {
    forall j | 0 <= j < m ensures Line(l, f, i, j) == Line(l, g, i', j) { LineCong(l, f, i, j, g, i', j); }
    SumCong(m, Lines(l, f, i), Lines(l, g, i'));
  }

  lemma Sum3Cong(n: nat, m: nat, l: nat, f: (int, int, int) -> int, g: (int, int, int) -> int)
    requires forall i, j, k :: 0 <= i < n && 0 <= j < m && 0 <= k < l ==> f(i, j, k) == g(i, j, k)
    ensures Sum3(n, m, l, f) == Sum3(n, m, l, g)
  {
    forall i | 0 <= i < n ensures Plane(m, l, f, i) == Plane(m, l, g, i) { PlaneCong(m, l, f, i, g, i); }
    SumCong(n, Planes(m, l, f), Planes(m, l, g));
  }

  lemma PlaneZero(m: nat, l: nat, f: (int, int, int) -> int, i: int)
    requires forall j, k :: 0 <= j < m && 0 <= k < l ==> f(i, j, k) == 0
    ensures Plane(m, l, f, i) == 0
  {
    forall j | 0 <= j < m ensures Line(l, f, i, j) == 0 { SumZero(l, Cells(f, i, j)); }
    SumZero(m, Lines(l, f, i));
  }

  /** Summing with the two inner indices counted backwards. */
  lemma Sum3Flip(n: nat, m: nat, l: nat, f: (int, int, int) -> int, g: (int, int, int) -> int)
    requires forall i, j, k :: 0 <= i < n && 0 <= j < m && 0 <= k < l ==> g(i, j, k) == f(i, m - 1 - j, l - 1 - k)
    ensures Sum3(n, m, l, f) == Sum3(n, m, l, g)
  {
    forall i | 0 <= i < n ensures Planes(m, l, f)(i) == Planes(m, l, g)(i) {
      var lines, lines' := Lines(l, f, i), Lines(l, g, i);
      forall j | 0 <= j < m ensures lines'(j) == lines(m - 1 - j) {
        SumReverse(l, Cells(f, i, m - 1 - j), Cells(g, i, j));
      }
      SumReverse(m, lines, lines');
    }
    SumCong(n, Planes(m, l, f), Planes(m, l, g));
  }

  /** Only planes base .. base + c contribute. */
  lemma Sum3Window(n: nat, m: nat, l: nat, f: (int, int, int) -> int, base: nat, c: nat, g: (int, int, int) -> int)
    requires base + c <= n
    requires forall i, j, k :: 0 <= i < n && !(base <= i < base + c) && 0 <= j < m && 0 <= k < l ==> f(i, j, k) == 0
    requires forall i, j, k :: 0 <= i < c && 0 <= j < m && 0 <= k < l ==> g(i, j, k) == f(base + i, j, k)
    ensures Sum3(n, m, l, f) == Sum3(c, m, l, g)
  {
    var F, G := Planes(m, l, f), Planes(m, l, g);
    forall i | 0 <= i < n && !(base <= i < base + c) ensures F(i) == 0 { PlaneZero(m, l, f, i); }
    forall i | 0 <= i < c ensures G(i) == F(base + i) { PlaneCong(m, l, g, i, f, base + i); }
    WindowSum(n, F, base, c, G);
  }

  lemma WindowSum(n: nat, f: int -> int, base: nat, c: nat, g: int -> int)
    requires base + c <= n
    requires forall i :: 0 <= i < n && !(base <= i < base + c) ==> f(i) == 0
    requires forall i :: 0 <= i < c ==> g(i) == f(base + i)
    ensures Sum(n, f) == Sum(c, g)
  {
    SumPrefix(base + c, n, f);
    SumSplit(base, c, f, g);
    SumZero(base, f);
  }

  /** One product of the convolution. */
  function Product(g: Geometry, x: Image, w: Kernel, oc: int, oy: int, ox: int): (int, int, int) -> int {
    (ic, kr, kc) => x(ic, oy * g.strideH - g.padTop + kr, ox * g.strideW - g.padLeft + kc) * w(oc, ic, kr, kc)
  }

  /** The textbook convolution of an image that is zero outside its bounds. */
  function Convolve(g: Geometry, x: Image, w: Kernel, oc: int, oy: int, ox: int): int {
    Sum3(g.inC, g.kh, g.kw, Product(g, x, w, oc, oy, ox))
  }

  lemma ConvolveCong(g: Geometry, x: Image, w: Kernel, x': Image, w': Kernel, oc: int, oy: int, ox: int)
    requires forall ic, y, c :: 0 <= ic < g.inC ==> x(ic, y, c) == x'(ic, y, c)
    requires forall ic, kr, kc :: 0 <= ic < g.inC && 0 <= kr < g.kh && 0 <= kc < g.kw ==> w(oc, ic, kr, kc) == w'(oc, ic, kr, kc)
    ensures Convolve(g, x, w, oc, oy, ox) == Convolve(g, x', w', oc, oy, ox)
  {
    Sum3Cong(g.inC, g.kh, g.kw, Product(g, x, w, oc, oy, ox), Product(g, x', w', oc, oy, ox));
  }

  /** Rows and columns of the output: one for every place where the kernel lies within the
      padded image. */
  lemma KernelFitsIff(g: Geometry, oy: nat, ox: nat)
    requires g.Valid()
    ensures oy < g.OutH() <==> oy * g.strideH + g.kh <= g.padTop + g.inH + g.padBottom
    ensures ox < g.OutW() <==> ox * g.strideW + g.kw <= g.padLeft + g.inW + g.padRight
  {
    StepsWithin(g.inH + g.padTop + g.padBottom - g.kh, g.strideH, oy);
    StepsWithin(g.inW + g.padLeft + g.padRight - g.kw, g.strideW, ox);
  }

  lemma StepsWithin(room: nat, stride: nat, o: nat)
    requires stride > 0
    ensures o < room / stride + 1 <==> o * stride <= room
  {
    DivMod(room, stride);
    if o <= room / stride { MulLe(o, room / stride, stride, stride); }
    Step(room / stride, o, stride);
  }

  // ---------------------------------------------------------------- the engine

  /** What the engine fetches for an input pixel by the strides gen_conv2d_int8 wrote;
      outside the cube, zero. */
  function Fetch(g: Geometry, feat: seq<int>): Image {
    (ic, y, x) => if 0 <= y < g.inH && 0 <= x < g.inW then At(feat, EnginePlace(g.inH, g.inW, y, x, ic)) else 0
  }

  /** The image laid out in a feature cube. */
  function LaidOut(g: Geometry, feat: seq<int>): Image {
    (ic, y, x) =>
      if 0 <= y < g.inH && 0 <= x < g.inW then At(feat, FeatureData(g.inH, g.inW, 16, ic + 1, y + 1, x + 1)) else 0
  }

  lemma LaidOutAt(g: Geometry, feat: seq<int>, c: int, y: int, x: int)
    requires 0 <= y < g.inH && 0 <= x < g.inW
    ensures LaidOut(g, feat)(c, y, x) == At(feat, FeatureData(g.inH, g.inW, 16, c + 1, y + 1, x + 1))
  {
  }

  /** Under the condition of the strides the engine fetches the image that was laid out. */
  lemma FetchesLaidOut(g: Geometry, feat: seq<int>, ic: int, y: int, x: int)
    requires InPlace(g.inH, g.inW, g.inC) && 0 <= ic < g.inC
    ensures Fetch(g, feat)(ic, y, x) == LaidOut(g, feat)(ic, y, x)
  {
    hide EnginePlace, FeatureData, InPlace;
    if 0 <= y < g.inH && 0 <= x < g.inW { FetchInPlace(g.inH, g.inW, g.inC, y, x, ic); }
  }

  function FetchWeight(g: Geometry, wt: seq<int>): Kernel {
    (oc, ic, kr, kc) => At(wt, Conv2dWeight(g.inC, g.kh, g.kw, oc + 1, ic + 1, kr, kc))
  }

  /** The accumulator the engine produces for one output element. */
  function NpuConv(g: Geometry, feat: seq<int>, wt: seq<int>, oc: int, oy: int, ox: int): int {
    Convolve(g, Fetch(g, feat), FetchWeight(g, wt), oc, oy, ox)
  }

  /** Products of two signed bytes over K terms fit a signed 32-bit accumulator while
      K stays below 2^17. */
  lemma AccumulatorFits(K: nat, f: int -> int)
    requires K < 131072 && forall k :: 0 <= k < K ==> -16384 <= f(k) <= 16384
    ensures -0x8000_0000 <= Sum(K, f) < 0x8000_0000
  {
    SumBound(K, f, 16384);
  }

  // ---------------------------------------------------------------- grouped convolution

  datatype Outcome = Descriptor(g: Geometry) | Rejected(code: int)

  /** gen_grouped_conv2d_int8's own check; groups 0 counts as 1. */
  function Groups(groups: nat): nat { if groups == 0 then 1 else groups }

  function GenGrouped(g: Geometry, groups: nat): Outcome {
    if g.inC % Groups(groups) != 0 || g.outC % Groups(groups) != 0 then Rejected(-10) else Descriptor(g)
  }

  /** Handed over exactly when input and output channels fall into that many groups. */
  lemma GroupsDivideIff(g: Geometry, groups: nat)
    ensures GenGrouped(g, groups).Descriptor? <==> exists a: nat, b: nat :: g.inC == a * Groups(groups) && g.outC == b * Groups(groups)
  {
    var n := Groups(groups);
    DivMod(g.inC, n);
    DivMod(g.outC, n);
    forall a: nat, b: nat | g.inC == a * n && g.outC == b * n ensures g.inC % n == 0 && g.outC % n == 0 {
      Digits(n, a, 0, g.inC / n, g.inC % n);
      Digits(n, b, 0, g.outC / n, g.outC % n);
    }
    if g.inC % n == 0 && g.outC % n == 0 { assert g.inC == g.inC / n * n && g.outC == g.outC / n * n; }
  }

  /** grouped_conv2d_weight, 1-based oc and icInGroup. */
  function GroupedConv2dWeight(g: Geometry, groups: nat, oc: int, icInGroup: int, krow: int, kcol: int): int
    requires groups > 0 && g.outC / groups > 0
  {
    var grp := (oc - 1) / (g.outC / groups);
    Conv2dWeight(g.inC, g.kh, g.kw, oc, grp * (g.inC / groups) + icInGroup, krow, kcol)
  }

  /** A grouped convolution: output channel oc sees the input channels of its group only. */
  function GroupedConvolve(g: Geometry, groups: nat, x: Image, w: Kernel, oc: int, oy: int, ox: int): int
    requires groups > 0 && g.outC / groups > 0
  {
    var (icg, base) := (g.inC / groups, oc / (g.outC / groups) * (g.inC / groups));
    Sum3(icg, g.kh, g.kw, Product(g.(inC := icg), (ic, y, c) => x(base + ic, y, c), w, oc, oy, ox))
  }

  /** The block-diagonal expansion of a grouped kernel. */
  function Expanded(g: Geometry, groups: nat, w: Kernel): Kernel
    requires groups > 0 && g.outC / groups > 0
  {
    (oc, ic, kr, kc) =>
      var base := oc / (g.outC / groups) * (g.inC / groups);
      if base <= ic < base + g.inC / groups then w(oc, ic - base, kr, kc) else 0
  }

  lemma BlockInside(inC: nat, outC: nat, groups: nat, oc: int)
    requires groups > 0 && inC % groups == 0 && outC % groups == 0 && 0 <= oc < outC
    ensures outC / groups > 0
    ensures 0 <= oc / (outC / groups) < groups
    ensures 0 <= oc / (outC / groups) * (inC / groups) && oc / (outC / groups) * (inC / groups) + inC / groups <= inC
  {
    DivMod(inC, groups);
    DivMod(outC, groups);
    GroupInside(groups, inC / groups, outC / groups, oc);
  }

  lemma GroupInside(groups: nat, icg: nat, ocg: nat, oc: int)
    requires groups > 0 && 0 <= oc < ocg * groups
    ensures ocg > 0 && 0 <= oc / ocg < groups && 0 <= oc / ocg * icg && oc / ocg * icg + icg <= icg * groups
  {
    SomeGroup(ocg, groups);
    QuotBelow(oc, ocg, groups);
    GroupWindow(oc / ocg, groups, icg);
  }

  lemma SomeGroup(ocg: nat, groups: nat)
    requires 0 < ocg * groups
    ensures ocg > 0
  {
  }

  lemma GroupWindow(b: nat, groups: nat, icg: nat)
    requires b < groups
    ensures 0 <= b * icg && b * icg + icg <= icg * groups
  {
    MulLe(0, b, 0, icg);
    MulLe(b + 1, groups, icg, icg);
    assert (b + 1) * icg == b * icg + icg;
  }

  /** Convolving with the block-diagonal kernel is grouped convolution. */
  lemma BlockDiagonalIsGrouped(g: Geometry, groups: nat, x: Image, w: Kernel, oc: int, oy: int, ox: int)
    requires groups > 0 && g.inC % groups == 0 && g.outC % groups == 0 && 0 <= oc < g.outC && g.outC / groups > 0
    ensures Convolve(g, x, Expanded(g, groups, w), oc, oy, ox) == GroupedConvolve(g, groups, x, w, oc, oy, ox)
  {
    BlockInside(g.inC, g.outC, groups, oc);
    var icg := g.inC / groups;
    var base := oc / (g.outC / groups) * icg;
    var (full, part) := (Product(g, x, Expanded(g, groups, w), oc, oy, ox), Block(g, icg, base, x, w, oc, oy, ox));
    hide Expanded, Product, Block, Sum3;
    forall i, j, k | 0 <= i < g.inC && !(base <= i < base + icg) ensures full(i, j, k) == 0 { OffBlock(g, groups, x, w, oc, oy, ox, i, j, k); }
    forall i, j, k | 0 <= i < icg ensures part(i, j, k) == full(base + i, j, k) { OnBlock(g, groups, x, w, oc, oy, ox, i, j, k); }
    BlockWindow(g, full, base, icg, part);
    GroupedIs(g, groups, x, w, oc, oy, ox);
  }

  /** The products of one group. */
  function Block(g: Geometry, icg: nat, base: int, x: Image, w: Kernel, oc: int, oy: int, ox: int): (int, int, int) -> int {
    Product(g.(inC := icg), (ic, y, c) => x(base + ic, y, c), w, oc, oy, ox)
  }

  lemma GroupedIs(g: Geometry, groups: nat, x: Image, w: Kernel, oc: int, oy: int, ox: int)
    requires groups > 0 && g.outC / groups > 0
    ensures GroupedConvolve(g, groups, x, w, oc, oy, ox)
         == Sum3(g.inC / groups, g.kh, g.kw, Block(g, g.inC / groups, oc / (g.outC / groups) * (g.inC / groups), x, w, oc, oy, ox))
  {
  }

  lemma BlockWindow(g: Geometry, full: (int, int, int) -> int, base: nat, icg: nat, part: (int, int, int) -> int)
    requires base + icg <= g.inC
    requires forall i, j, k :: 0 <= i < g.inC && !(base <= i < base + icg) ==> full(i, j, k) == 0
    requires forall i, j, k :: 0 <= i < icg ==> part(i, j, k) == full(base + i, j, k)
    ensures Sum3(g.inC, g.kh, g.kw, full) == Sum3(icg, g.kh, g.kw, part)
  {
    Sum3Window(g.inC, g.kh, g.kw, full, base, icg, part);
  }

  lemma OffBlock(g: Geometry, groups: nat, x: Image, w: Kernel, oc: int, oy: int, ox: int, i: int, j: int, k: int)
    requires groups > 0 && g.outC / groups > 0
    requires
      var base := oc / (g.outC / groups) * (g.inC / groups);
      !(base <= i < base + g.inC / groups)
    ensures Product(g, x, Expanded(g, groups, w), oc, oy, ox)(i, j, k) == 0
  {
    var v := x(i, oy * g.strideH - g.padTop + j, ox * g.strideW - g.padLeft + k);
    assert v * 0 == 0;
  }

  lemma OnBlock(g: Geometry, groups: nat, x: Image, w: Kernel, oc: int, oy: int, ox: int, i: int, j: int, k: int)
    requires groups > 0 && g.outC / groups > 0 && 0 <= i < g.inC / groups
    ensures
      var (icg, base) := (g.inC / groups, oc / (g.outC / groups) * (g.inC / groups));
      Block(g, icg, base, x, w, oc, oy, ox)(i, j, k) == Product(g, x, Expanded(g, groups, w), oc, oy, ox)(base + i, j, k)
  {
    var base := oc / (g.outC / groups) * (g.inC / groups);
    assert Expanded(g, groups, w)(oc, base + i, j, k) == w(oc, i, j, k);
  }

  // ---------------------------------------------------------------- the grouped layout

  /** Grouping parameters under which no two weights share a place. */
  ghost predicate Grouping(g: Geometry, groups: nat) {
    && groups > 0 && g.inC % groups == 0 && g.outC % groups == 0 && g.outC / groups > 0
    && g.inC / groups > 0 && g.kh > 0 && g.kw > 0 && (g.kh * g.kw * g.inC % 32 == 0 || g.outC <= 32)
  }

  /** Place of the s-th compact weight, [out_c][in_c / groups][kh][kw] in row-major order. */
  function GroupedPlace(g: Geometry, groups: nat): int -> int
    requires groups > 0 && g.outC / groups > 0 && g.inC / groups > 0 && g.kh > 0 && g.kw > 0
  {
    s =>
      var i := Decode(g.inC / groups, g.kh, g.kw, s);
      GroupedConv2dWeight(g, groups, i.a + 1, i.b + 1, i.c, i.d)
  }

  /** The compact weights as a kernel. */
  function Compact(g: Geometry, icg: nat, w: seq<int>): Kernel {
    (oc, i, kr, kc) => At(w, Encode(icg, g.kh, g.kw, oc, i, kr, kc))
  }

  /** The zeroed weight buffer after every compact weight went to its place. */
  function GroupedLayout(g: Geometry, groups: nat, w: seq<int>, size: nat): seq<int>
    requires groups > 0 && g.outC / groups > 0 && g.inC / groups > 0 && g.kh > 0 && g.kw > 0
  {
    WriteAll(Zeros(size), Count(g.outC, g.inC / groups, g.kh, g.kw), GroupedPlace(g, groups), s => At(w, s))
  }

  lemma GroupedPlaceOf(g: Geometry, groups: nat, s: int)
    requires Grouping(g, groups) && 0 <= s < Count(g.outC, g.inC / groups, g.kh, g.kw)
    ensures
      var i := Decode(g.inC / groups, g.kh, g.kw, s);
      var ic := i.a / (g.outC / groups) * (g.inC / groups) + i.b;
      && 0 <= i.a < g.outC && 0 <= i.b < g.inC / groups && 0 <= i.c < g.kh && 0 <= i.d < g.kw && 0 <= ic < g.inC
      && Encode(g.inC / groups, g.kh, g.kw, i.a, i.b, i.c, i.d) == s
      && GroupedPlace(g, groups)(s) == Conv2dWeight(g.inC, g.kh, g.kw, i.a + 1, ic + 1, i.c, i.d)
  {
    EncodeDecode(g.outC, g.inC / groups, g.kh, g.kw, s);
    BlockInside(g.inC, g.outC, groups, Decode(g.inC / groups, g.kh, g.kw, s).a);
  }

  lemma GroupedPlacesDistinct(g: Geometry, groups: nat, s: int, t: int)
    requires Grouping(g, groups)
    requires 0 <= s < Count(g.outC, g.inC / groups, g.kh, g.kw) && 0 <= t < Count(g.outC, g.inC / groups, g.kh, g.kw)
    requires GroupedPlace(g, groups)(s) == GroupedPlace(g, groups)(t)
    ensures s == t
  {
    GroupedPlaceOf(g, groups, s);
    GroupedPlaceOf(g, groups, t);
    var (i, j) := (Decode(g.inC / groups, g.kh, g.kw, s), Decode(g.inC / groups, g.kh, g.kw, t));
    ConvWeightInjective(g.inC, g.kh, g.kw, g.outC,
                        i.a + 1, i.a / (g.outC / groups) * (g.inC / groups) + i.b + 1, i.c, i.d,
                        j.a + 1, j.a / (g.outC / groups) * (g.inC / groups) + j.b + 1, j.c, j.d);
  }

  /** The laid-out buffer holds the block-diagonal kernel: every compact weight at its
      place, zero everywhere off the diagonal. */
  lemma GroupedLayoutHolds(g: Geometry, groups: nat, w: seq<int>, size: nat, oc: int, ic: int, kr: int, kc: int)
    requires Grouping(g, groups) && size >= ConvRoom(g.inC, g.kh, g.kw, g.outC)
    requires 0 <= oc < g.outC && 0 <= ic < g.inC && 0 <= kr < g.kh && 0 <= kc < g.kw
    ensures FetchWeight(g, GroupedLayout(g, groups, w, size))(oc, ic, kr, kc)
         == Expanded(g, groups, Compact(g, g.inC / groups, w))(oc, ic, kr, kc)
  {
    var base := oc / (g.outC / groups) * (g.inC / groups);
    if base <= ic < base + g.inC / groups {
      OnDiagonalHeld(g, groups, w, size, oc, ic - base, kr, kc);
    } else {
      OffDiagonalHeld(g, groups, w, size, oc, ic, kr, kc);
    }
  }

  lemma OnDiagonalHeld(g: Geometry, groups: nat, w: seq<int>, size: nat, oc: int, i: int, kr: int, kc: int)
    requires Grouping(g, groups) && size >= ConvRoom(g.inC, g.kh, g.kw, g.outC)
    requires 0 <= oc < g.outC && 0 <= i < g.inC / groups && 0 <= kr < g.kh && 0 <= kc < g.kw
    ensures At(GroupedLayout(g, groups, w, size),
               Conv2dWeight(g.inC, g.kh, g.kw, oc + 1, oc / (g.outC / groups) * (g.inC / groups) + i + 1, kr, kc))
         == At(w, Encode(g.inC / groups, g.kh, g.kw, oc, i, kr, kc))
  {
    var place := GroupedPlace(g, groups);
    var n := Count(g.outC, g.inC / groups, g.kh, g.kw);
    var s := Encode(g.inC / groups, g.kh, g.kw, oc, i, kr, kc);
    DecodeEncode(g.outC, g.inC / groups, g.kh, g.kw, oc, i, kr, kc);
    GroupedPlaceOf(g, groups, s);
    ConvWeightInRange(g.inC, g.kh, g.kw, g.outC, oc + 1, oc / (g.outC / groups) * (g.inC / groups) + i + 1, kr, kc);
    forall s, t | 0 <= s < n && 0 <= t < n && place(s) == place(t) ensures s == t {
      GroupedPlacesDistinct(g, groups, s, t);
    }
    HeldWhereWritten(size, n, place, s => At(w, s), s);
  }

  lemma OffDiagonalHeld(g: Geometry, groups: nat, w: seq<int>, size: nat, oc: int, ic: int, kr: int, kc: int)
    requires Grouping(g, groups) && size >= ConvRoom(g.inC, g.kh, g.kw, g.outC)
    requires 0 <= oc < g.outC && 0 <= ic < g.inC && 0 <= kr < g.kh && 0 <= kc < g.kw
    requires !(oc / (g.outC / groups) * (g.inC / groups) <= ic < oc / (g.outC / groups) * (g.inC / groups) + g.inC / groups)
    ensures At(GroupedLayout(g, groups, w, size), Conv2dWeight(g.inC, g.kh, g.kw, oc + 1, ic + 1, kr, kc)) == 0
  {
    var place := GroupedPlace(g, groups);
    var n := Count(g.outC, g.inC / groups, g.kh, g.kw);
    var p := Conv2dWeight(g.inC, g.kh, g.kw, oc + 1, ic + 1, kr, kc);
    ConvWeightInRange(g.inC, g.kh, g.kw, g.outC, oc + 1, ic + 1, kr, kc);
    hide Conv2dWeight, WeightInt8, GroupedPlace, ConvRoom, Count;
    forall s | 0 <= s < n ensures place(s) != p { OffDiagonal(g, groups, s, oc, ic, kr, kc); }
    ZeroElsewhere(size, n, place, s => At(w, s), p);
  }

  lemma OffDiagonal(g: Geometry, groups: nat, s: int, oc: int, ic: int, kr: int, kc: int)
    requires Grouping(g, groups) && 0 <= s < Count(g.outC, g.inC / groups, g.kh, g.kw)
    requires 0 <= oc < g.outC && 0 <= ic < g.inC && 0 <= kr < g.kh && 0 <= kc < g.kw
    requires !(oc / (g.outC / groups) * (g.inC / groups) <= ic < oc / (g.outC / groups) * (g.inC / groups) + g.inC / groups)
    ensures GroupedPlace(g, groups)(s) != Conv2dWeight(g.inC, g.kh, g.kw, oc + 1, ic + 1, kr, kc)
  {
    GroupedPlaceOf(g, groups, s);
    var i := Decode(g.inC / groups, g.kh, g.kw, s);
    var ic' := i.a / (g.outC / groups) * (g.inC / groups) + i.b;
    if GroupedPlace(g, groups)(s) == Conv2dWeight(g.inC, g.kh, g.kw, oc + 1, ic + 1, kr, kc) {
      ConvWeightInjective(g.inC, g.kh, g.kw, g.outC, oc + 1, ic + 1, kr, kc, i.a + 1, ic' + 1, i.c, i.d);
    }
  }

  /** The plain convolution over the laid-out compact weights is the grouped convolution of
      what the engine fetches, for every group count that divides both channel counts. */
  lemma GroupedOfFetched(g: Geometry, groups: nat, feat: seq<int>, w: seq<int>, size: nat, oc: int, oy: int, ox: int)
    requires Grouping(g, groups) && size >= ConvRoom(g.inC, g.kh, g.kw, g.outC) && 0 <= oc < g.outC
    ensures NpuConv(g, feat, GroupedLayout(g, groups, w, size), oc, oy, ox)
         == GroupedConvolve(g, groups, Fetch(g, feat), Compact(g, g.inC / groups, w), oc, oy, ox)
  {
    var wide := Expanded(g, groups, Compact(g, g.inC / groups, w));
    forall ic, kr, kc | 0 <= ic < g.inC && 0 <= kr < g.kh && 0 <= kc < g.kw
      ensures FetchWeight(g, GroupedLayout(g, groups, w, size))(oc, ic, kr, kc) == wide(oc, ic, kr, kc)
    {
      GroupedLayoutHolds(g, groups, w, size, oc, ic, kr, kc);
    }
    ConvolveCong(g, Fetch(g, feat), FetchWeight(g, GroupedLayout(g, groups, w, size)), Fetch(g, feat), wide, oc, oy, ox);
    BlockDiagonalIsGrouped(g, groups, Fetch(g, feat), Compact(g, g.inC / groups, w), oc, oy, ox);
  }

  lemma GroupedCong(g: Geometry, groups: nat, x: Image, x': Image, w: Kernel, oc: int, oy: int, ox: int)
    requires groups > 0 && g.inC % groups == 0 && g.outC % groups == 0 && g.outC / groups > 0 && 0 <= oc < g.outC
    requires forall ic, y, c :: 0 <= ic < g.inC ==> x(ic, y, c) == x'(ic, y, c)
    ensures GroupedConvolve(g, groups, x, w, oc, oy, ox) == GroupedConvolve(g, groups, x', w, oc, oy, ox)
  {
    BlockInside(g.inC, g.outC, groups, oc);
    var (icg, base) := (g.inC / groups, oc / (g.outC / groups) * (g.inC / groups));
    var part := Product(g.(inC := icg), (ic, y, c) => x(base + ic, y, c), w, oc, oy, ox);
    var part' := Product(g.(inC := icg), (ic, y, c) => x'(base + ic, y, c), w, oc, oy, ox);
    Sum3Cong(icg, g.kh, g.kw, part, part');
  }

  /** It is the grouped convolution of the image that was laid out when the strides reach
      every lane: at most 16 channels, a height that is a multiple of 4, or one pixel. */
  lemma GroupedLoweringExact(g: Geometry, groups: nat, feat: seq<int>, w: seq<int>, size: nat, oc: int, oy: int, ox: int)
    requires Grouping(g, groups) && size >= ConvRoom(g.inC, g.kh, g.kw, g.outC) && 0 <= oc < g.outC
    requires InPlace(g.inH, g.inW, g.inC)
    ensures GenGrouped(g, groups) == Descriptor(g)
    ensures NpuConv(g, feat, GroupedLayout(g, groups, w, size), oc, oy, ox)
         == GroupedConvolve(g, groups, LaidOut(g, feat), Compact(g, g.inC / groups, w), oc, oy, ox)
  {
    GroupedOfFetched(g, groups, feat, w, size, oc, oy, ox);
    forall ic, y, c | 0 <= ic < g.inC ensures Fetch(g, feat)(ic, y, c) == LaidOut(g, feat)(ic, y, c) {
      FetchesLaidOut(g, feat, ic, y, c);
    }
    GroupedCong(g, groups, Fetch(g, feat), LaidOut(g, feat), Compact(g, g.inC / groups, w), oc, oy, ox);
  }

  // ---------------------------------------------------------------- when the lowering is exact

  /** Output position (oy, ox) looks through kernel element (kr, kc) at input pixel (y, x). */
  predicate Looks(g: Geometry, oy: int, ox: int, kr: int, kc: int, y: int, x: int) {
    && 0 <= kr < g.kh && 0 <= kc < g.kw && 0 <= y < g.inH && 0 <= x < g.inW
    && y == oy * g.strideH - g.padTop + kr && x == ox * g.strideW - g.padLeft + kc
  }

  /** Some output looks at some pixel; otherwise every output is 0. */
  ghost predicate Sighted(g: Geometry)
    requires g.Valid()
  {
    exists oy, ox, kr, kc, y, x :: 0 <= oy < g.OutH() && 0 <= ox < g.OutW() && Looks(g, oy, ox, kr, kc, y, x)
  }

  /** A grid with padding smaller than the kernel is. */
  lemma UsuallySighted(g: Geometry)
    requires g.Valid() && g.inH > 0 && g.inW > 0 && g.padTop < g.kh && g.padLeft < g.kw
    ensures Sighted(g)
  {
    assert 0 * g.strideH == 0 && 0 * g.strideW == 0;
    DivMod(g.inH + g.padTop + g.padBottom - g.kh, g.strideH);
    DivMod(g.inW + g.padLeft + g.padRight - g.kw, g.strideW);
    assert Looks(g, 0, 0, g.padTop, g.padLeft, 0, 0);
  }

  /** Bytes of the feature cube and the number of compact weights. */
  ghost predicate Operands(g: Geometry, groups: nat, feat: seq<int>, w: seq<int>)
    requires groups > 0
  {
    && |feat| == CeilDiv(g.inC, 16) * (g.inH * g.inW) * 16 && |w| == Count(g.outC, g.inC / groups, g.kh, g.kw)
    && (forall i :: 0 <= i < |feat| ==> -128 <= feat[i] <= 127) && forall i :: 0 <= i < |w| ==> -128 <= w[i] <= 127
  }

  /** At output element (oc, oy, ox) the engine yields the grouped convolution. */
  predicate ExactAt(g: Geometry, groups: nat, feat: seq<int>, w: seq<int>, oc: int, oy: int, ox: int)
    requires Grouping(g, groups)
  {
    NpuConv(g, feat, GroupedLayout(g, groups, w, ConvRoom(g.inC, g.kh, g.kw, g.outC)), oc, oy, ox)
    == GroupedConvolve(g, groups, LaidOut(g, feat), Compact(g, g.inC / groups, w), oc, oy, ox)
  }

  /** A kernel with a single 1 picks one pixel of its group. */
  lemma OneProduct(g: Geometry, groups: nat, x: Image, w: seq<int>, oc: int, i: int, oy: int, ox: int, kr: int, kc: int, y: int, c: int)
    requires Grouping(g, groups) && 0 <= oc < g.outC && 0 <= i < g.inC / groups && Looks(g, oy, ox, kr, kc, y, c)
    requires w == OneHot(Count(g.outC, g.inC / groups, g.kh, g.kw), Encode(g.inC / groups, g.kh, g.kw, oc, i, kr, kc))
    ensures GroupedConvolve(g, groups, x, Compact(g, g.inC / groups, w), oc, oy, ox)
         == x(oc / (g.outC / groups) * (g.inC / groups) + i, y, c)
  {
    var (icg, base) := (g.inC / groups, oc / (g.outC / groups) * (g.inC / groups));
    var f := Product(g.(inC := icg), (ic, y, c) => x(base + ic, y, c), Compact(g, icg, w), oc, oy, ox);
    hide Encode, Count, Grouping;
    forall a, b, d | 0 <= a < icg && 0 <= b < g.kh && 0 <= d < g.kw && !(a == i && b == kr && d == kc) ensures f(a, b, d) == 0 {
      OtherWeight(g, icg, w, oc, i, kr, kc, a, b, d);
    }
    HotWeight(g, icg, w, oc, i, kr, kc);
    Sum3One(icg, g.kh, g.kw, f, i, kr, kc);
  }

  lemma HotWeight(g: Geometry, icg: nat, w: seq<int>, oc: int, i: int, kr: int, kc: int)
    requires 0 <= oc < g.outC && 0 <= i < icg && 0 <= kr < g.kh && 0 <= kc < g.kw
    requires w == OneHot(Count(g.outC, icg, g.kh, g.kw), Encode(icg, g.kh, g.kw, oc, i, kr, kc))
    ensures Compact(g, icg, w)(oc, i, kr, kc) == 1
  {
    DecodeEncode(g.outC, icg, g.kh, g.kw, oc, i, kr, kc);
  }

  lemma OtherWeight(g: Geometry, icg: nat, w: seq<int>, oc: int, i: int, kr: int, kc: int, a: int, b: int, d: int)
    requires 0 <= oc < g.outC && 0 <= i < icg && 0 <= kr < g.kh && 0 <= kc < g.kw && 0 <= a < icg && 0 <= b < g.kh && 0 <= d < g.kw
    requires w == OneHot(Count(g.outC, icg, g.kh, g.kw), Encode(icg, g.kh, g.kw, oc, i, kr, kc)) && !(a == i && b == kr && d == kc)
    ensures Compact(g, icg, w)(oc, a, b, d) == 0
  {
    DecodeEncode(g.outC, icg, g.kh, g.kw, oc, i, kr, kc);
    DecodeEncode(g.outC, icg, g.kh, g.kw, oc, a, b, d);
  }

  /** At most one summand of three nested sums is nonzero. */
  lemma Sum3One(n: nat, m: nat, l: nat, f: (int, int, int) -> int, i: int, j: int, k: int)
    requires 0 <= i < n && 0 <= j < m && 0 <= k < l
    requires forall a, b, d :: 0 <= a < n && 0 <= b < m && 0 <= d < l && !(a == i && b == j && d == k) ==> f(a, b, d) == 0
    ensures Sum3(n, m, l, f) == f(i, j, k)
  {
    forall a | 0 <= a < n && a != i ensures Planes(m, l, f)(a) == 0 { PlaneZero(m, l, f, a); }
    SumOne(n, Planes(m, l, f), i);
    forall b | 0 <= b < m && b != j ensures Lines(l, f, i)(b) == 0 { SumZero(l, Cells(f, i, b)); }
    SumOne(m, Lines(l, f, i), j);
    SumOne(l, Cells(f, i, j), k);
  }

  /** With that kernel the engine yields one element that it fetched, and the grouped
      convolution one of the image. */
  lemma OnePixel(g: Geometry, groups: nat, feat: seq<int>, w: seq<int>, size: nat, oc: int, i: int, oy: int, ox: int,
                 kr: int, kc: int, y: int, x: int)
    requires Grouping(g, groups) && 0 <= oc < g.outC && 0 <= i < g.inC / groups && Looks(g, oy, ox, kr, kc, y, x)
    requires w == OneHot(Count(g.outC, g.inC / groups, g.kh, g.kw), Encode(g.inC / groups, g.kh, g.kw, oc, i, kr, kc))
    requires size >= ConvRoom(g.inC, g.kh, g.kw, g.outC)
    ensures NpuConv(g, feat, GroupedLayout(g, groups, w, size), oc, oy, ox)
         == Fetch(g, feat)(oc / (g.outC / groups) * (g.inC / groups) + i, y, x)
    ensures GroupedConvolve(g, groups, LaidOut(g, feat), Compact(g, g.inC / groups, w), oc, oy, ox)
         == LaidOut(g, feat)(oc / (g.outC / groups) * (g.inC / groups) + i, y, x)
  {
    hide NpuConv, GroupedConvolve, GroupedLayout, Fetch, LaidOut, Compact, Encode, Count, ConvRoom;
    GroupedOfFetched(g, groups, feat, w, size, oc, oy, ox);
    OneProduct(g, groups, Fetch(g, feat), w, oc, i, oy, ox, kr, kc, y, x);
    OneProduct(g, groups, LaidOut(g, feat), w, oc, i, oy, ox, kr, kc, y, x);
  }

  /** Out of place, channel 16 shows it wherever an output looks: a 1 laid out there is not
      fetched. */
  lemma SecondPlaneLost(g: Geometry, groups: nat, oy: int, ox: int, kr: int, kc: int, y: int, x: int)
    returns (feat: seq<int>, w: seq<int>, oc: nat)
    requires g.Valid() && Grouping(g, groups) && !InPlace(g.inH, g.inW, g.inC) && Looks(g, oy, ox, kr, kc, y, x)
    ensures Operands(g, groups, feat, w) && oc < g.outC && !ExactAt(g, groups, feat, w, oc, oy, ox)
  {
    hide Operands, NpuConv, GroupedConvolve, GroupedLayout, Fetch, LaidOut, FeatureData, EnginePlace, Compact, Encode, Count, CeilDiv, ConvRoom;
    var (icg, ocg) := (g.inC / groups, g.outC / groups);
    oc := GroupOf(g, groups, 16);
    var i := 16 - oc / ocg * icg;
    var size := CubeSize(g);
    feat := OneHot(size, FeatureData(g.inH, g.inW, 16, 17, y + 1, x + 1));
    w := OneHot(Count(g.outC, icg, g.kh, g.kw), Encode(icg, g.kh, g.kw, oc, i, kr, kc));
    AreOperands(g, groups, feat, w);
    OnePixel(g, groups, feat, w, ConvRoom(g.inC, g.kh, g.kw, g.outC), oc, i, oy, ox, kr, kc, y, x);
    ChannelLost(g, feat, y, x);
  }

  function CubeSize(g: Geometry): nat {
    MulLe(0, g.inH, 0, g.inW);
    MulLe(0, CeilDiv(g.inC, 16), 0, g.inH * g.inW);
    CeilDiv(g.inC, 16) * (g.inH * g.inW) * 16
  }

  lemma AreOperands(g: Geometry, groups: nat, feat: seq<int>, w: seq<int>)
    requires groups > 0 && |feat| == CubeSize(g) && |w| == Count(g.outC, g.inC / groups, g.kh, g.kw)
    requires (forall i :: 0 <= i < |feat| ==> 0 <= feat[i] <= 1) && forall i :: 0 <= i < |w| ==> 0 <= w[i] <= 1
    ensures Operands(g, groups, feat, w)
  {
  }

  /** An output channel whose group contains input channel c. */
  lemma GroupOf(g: Geometry, groups: nat, c: nat) returns (oc: nat)
    requires Grouping(g, groups) && c < g.inC
    ensures oc < g.outC
    ensures 0 <= c - oc / (g.outC / groups) * (g.inC / groups) < g.inC / groups
  {
    DivMod(g.inC, groups);
    DivMod(g.outC, groups);
    oc := ChannelIn(groups, g.inC / groups, g.outC / groups, c);
  }

  lemma ChannelIn(groups: nat, icg: nat, ocg: nat, c: nat) returns (oc: nat)
    requires c < icg * groups && ocg > 0
    ensures oc < ocg * groups && 0 <= c - oc / ocg * icg < icg
  {
    var q := c / icg;
    QuotBelow(c, icg, groups);
    DivMod(c, icg);
    MulLe(0, q, 0, ocg);
    oc := q * ocg;
    QuotRem(ocg, q, 0);
    MulLe(q + 1, groups, ocg, ocg);
    assert (q + 1) * ocg == oc + ocg;
  }

  lemma ChannelLost(g: Geometry, feat: seq<int>, y: int, x: int)
    requires !InPlace(g.inH, g.inW, g.inC) && 0 <= y < g.inH && 0 <= x < g.inW
    requires feat == OneHot(CubeSize(g), FeatureData(g.inH, g.inW, 16, 17, y + 1, x + 1))
    ensures Fetch(g, feat)(16, y, x) == 0 && LaidOut(g, feat)(16, y, x) == 1
  {
    hide FeatureData, EnginePlace, CeilDiv;
    FeatureInRange(g.inC, g.inH, g.inW, 16, 17, y + 1, x + 1);
    FetchOutOfPlace(g.inH, g.inW, y, x, 16);
    LaidOutAt(g, feat, 16, y, x);
  }

  /** The grouped lowering is exact for every image and all weights exactly when the strides
      reach every lane, or no output looks at any pixel. */
  lemma GroupedLoweringIff(g: Geometry, groups: nat)
    requires g.Valid() && Grouping(g, groups)
    ensures (forall feat, w, oc, oy, ox ::
               Operands(g, groups, feat, w) && 0 <= oc < g.outC && 0 <= oy < g.OutH() && 0 <= ox < g.OutW() ==>
                 ExactAt(g, groups, feat, w, oc, oy, ox))
       <==> InPlace(g.inH, g.inW, g.inC) || !Sighted(g)
  {
    if InPlace(g.inH, g.inW, g.inC) || !Sighted(g) {
      forall feat, w, oc, oy, ox | Operands(g, groups, feat, w) && 0 <= oc < g.outC && 0 <= oy < g.OutH() && 0 <= ox < g.OutW()
        ensures ExactAt(g, groups, feat, w, oc, oy, ox)
      {
        if InPlace(g.inH, g.inW, g.inC) {
          GroupedLoweringExact(g, groups, feat, w, ConvRoom(g.inC, g.kh, g.kw, g.outC), oc, oy, ox);
        } else {
          BlindIsExact(g, groups, feat, w, oc, oy, ox);
        }
      }
    } else {
      var oy, ox, kr, kc, y, x :| 0 <= oy < g.OutH() && 0 <= ox < g.OutW() && Looks(g, oy, ox, kr, kc, y, x);
      var feat, w, oc := SecondPlaneLost(g, groups, oy, ox, kr, kc, y, x);
    }
  }

  /** An output that looks at no pixel is 0 either way. */
  lemma BlindIsExact(g: Geometry, groups: nat, feat: seq<int>, w: seq<int>, oc: int, oy: int, ox: int)
    requires g.Valid() && Grouping(g, groups) && !Sighted(g) && 0 <= oc < g.outC && 0 <= oy < g.OutH() && 0 <= ox < g.OutW()
    ensures ExactAt(g, groups, feat, w, oc, oy, ox)
  {
    GroupedOfFetched(g, groups, feat, w, ConvRoom(g.inC, g.kh, g.kw, g.outC), oc, oy, ox);
    BlindSum(g, groups, Fetch(g, feat), Compact(g, g.inC / groups, w), oc, oy, ox);
    BlindSum(g, groups, LaidOut(g, feat), Compact(g, g.inC / groups, w), oc, oy, ox);
  }

  lemma BlindSum(g: Geometry, groups: nat, x: Image, w: Kernel, oc: int, oy: int, ox: int)
    requires g.Valid() && groups > 0 && g.outC / groups > 0 && !Sighted(g) && 0 <= oy < g.OutH() && 0 <= ox < g.OutW()
    requires forall ic, y, c :: !(0 <= y < g.inH && 0 <= c < g.inW) ==> x(ic, y, c) == 0
    ensures GroupedConvolve(g, groups, x, w, oc, oy, ox) == 0
  {
    var (icg, base) := (g.inC / groups, oc / (g.outC / groups) * (g.inC / groups));
    var f := Product(g.(inC := icg), (ic, y, c) => x(base + ic, y, c), w, oc, oy, ox);
    forall a, b, d | 0 <= a < icg && 0 <= b < g.kh && 0 <= d < g.kw ensures f(a, b, d) == 0 {
      assert !Looks(g, oy, ox, b, d, oy * g.strideH - g.padTop + b, ox * g.strideW - g.padLeft + d);
    }
    forall a | 0 <= a < icg ensures Planes(g.kh, g.kw, f)(a) == 0 { PlaneZero(g.kh, g.kw, f, a); }
    SumZero(icg, Planes(g.kh, g.kw, f));
  }

  /** Seven rows of seven pixels, 32 channels in two groups, 1 x 1 kernels. */
  const SEVEN := Geometry(7, 7, 32, 2, 1, 1, 1, 1, 0, 0, 0, 0)

  lemma SevenLaidOut(feat: seq<int>)
    ensures LaidOut(SEVEN, feat)(16, 0, 0) == At(feat, 784) && LaidOut(SEVEN, feat)(0, 4, 0) == At(feat, 448)
    ensures Fetch(SEVEN, feat)(16, 0, 0) == At(feat, 448)
    ensures EnginePlace(7, 7, 0, 0, 16) == 448 == FeatureData(7, 7, 16, 1, 5, 1) && FeatureData(7, 7, 16, 17, 1, 1) == 784
  {
    LaidOutAt(SEVEN, feat, 16, 0, 0);
    LaidOutAt(SEVEN, feat, 0, 4, 0);
    assert FeatureData(7, 7, 16, 17, 1, 1) == 784 && FeatureData(7, 7, 16, 1, 5, 1) == 448 == EnginePlace(7, 7, 0, 0, 16);
  }

  lemma SevenIsGrouped()
    ensures SEVEN == Geometry(7, 7, 32, 2, 1, 1, 1, 1, 0, 0, 0, 0)
    ensures SEVEN.Valid() && Grouping(SEVEN, 2) && GenGrouped(SEVEN, 2) == Descriptor(SEVEN) && !InPlace(7, 7, 32) && Sighted(SEVEN)
  {
    UsuallySighted(SEVEN);
  }

  /** The descriptor is handed over, and channel 16 of pixel (0, 0), the first of the second
      group, is fetched where channel 0 of pixel (4, 0) lies, which is of the first: an output
      of the second group comes out as 1 in place of 0. */
  lemma SevenBySevenFails() returns (feat: seq<int>, w: seq<int>, oc: int)
    ensures SEVEN.Valid() && Grouping(SEVEN, 2) && GenGrouped(SEVEN, 2) == Descriptor(SEVEN) && Sighted(SEVEN) && oc == 1
    ensures EnginePlace(7, 7, 0, 0, 16) == 448 == FeatureData(7, 7, 16, 1, 5, 1) && FeatureData(7, 7, 16, 17, 1, 1) == 784
    ensures |feat| == 1568 && (forall i :: 0 <= i < |feat| ==> feat[i] == if i == 448 then 1 else 0)
    ensures NpuConv(SEVEN, feat, GroupedLayout(SEVEN, 2, w, ConvRoom(32, 1, 1, 2)), oc, 0, 0) == 1
    ensures GroupedConvolve(SEVEN, 2, LaidOut(SEVEN, feat), Compact(SEVEN, 16, w), oc, 0, 0) == 0
  {
    hide *;
    SevenIsGrouped();
    feat, oc := OneHot(1568, 448), 1;
    w := OneHot(Count(2, 16, 1, 1), Encode(16, 1, 1, oc, 0, 0, 0));
    SevenLaidOut(feat);
    SevenLooks();
    OnePixel(SEVEN, 2, feat, w, ConvRoom(32, 1, 1, 2), oc, 0, 0, 0, 0, 0, 0, 0);
    assert oc / (SEVEN.outC / 2) * (SEVEN.inC / 2) + 0 == 16;
    assert At(feat, 448) == 1 && At(feat, 784) == 0 by { OneHotAt(1568, 448, 448); OneHotAt(1568, 448, 784); }
  }

  lemma SevenLooks()
    ensures Looks(SEVEN, 0, 0, 0, 0, 0, 0)
  {
  }

  /** dwconv2d_weight, 1-based channel. */
  function DwConv2dWeight(kh: nat, kw: nat, channels: nat, ch: int, krow: int, kcol: int): int {
    Conv2dWeight(channels, kh, kw, ch, ch, krow, kcol)
  }

  /** The depthwise layout is the grouped one with a group for every channel. */
  lemma DepthwiseIsGrouped(g: Geometry, ch: int, krow: int, kcol: int)
    requires g.inC == g.outC && 1 <= ch <= g.outC
    ensures g.outC / g.outC == 1
    ensures DwConv2dWeight(g.kh, g.kw, g.inC, ch, krow, kcol) == GroupedConv2dWeight(g, g.outC, ch, 1, krow, kcol)
  {
    QuotRem(g.outC, 1, 0);
  }
}
