/** Convolution as blocked im2col and matmul (src/yolo/yolo_conv.c), on the weight layout
    that prelayout_conv_weight builds (src/yolo/yolo_model.c). */
module YoloConv {
  import opened Sums
  import opened Layout
  import opened Scatter
  import opened Conv
  import TiledMatmul

  const M_BLOCK: nat := 1024     // YOLO_M_BLOCK
  const MAX_K: nat := 1152       // YOLO_MAX_K
  const MAX_N: nat := 512        // entries of nbase
  const MAX_TILES: nat := 32     // YOLO_MAX_TILES

  /** Input tensor [c][h][w] and operator of one convolution. */
  datatype Op = Op(c: nat, h: nat, w: nat, outC: nat, kh: nat, kw: nat, stride: nat, pad: nat)
  {
    predicate Valid() {
      && c > 0 && h > 0 && w > 0 && outC > 0 && kh > 0 && kw > 0 && stride > 0
      && kh <= h + 2 * pad && kw <= w + 2 * pad && outC <= MAX_N && K() <= MAX_K
    }
    function K(): nat { c * kh * kw }
    function Kp(): nat { CeilDiv(K(), 32) * 32 }
    function Np(): nat { CeilDiv(outC, 32) * 32 }
    function OutH(): nat requires Valid() { (h + 2 * pad - kh) / stride + 1 }
    function OutW(): nat requires Valid() { (w + 2 * pad - kw) / stride + 1 }
    function M(): nat requires Valid() { OutH() * OutW() }
    function Geometry(): Geometry { Conv.Geometry(h, w, c, outC, kh, kw, stride, stride, pad, pad, pad, pad) }
  }

  /** One output row and column for every place of the kernel in the padded image. */
  lemma OutputsFit(op: Op, oy: nat, ox: nat)
    requires op.Valid()
    ensures oy < op.OutH() <==> oy * op.stride + op.kh <= op.pad + op.h + op.pad
    ensures ox < op.OutW() <==> ox * op.stride + op.kw <= op.pad + op.w + op.pad
  {
    KernelFitsIff(op.Geometry(), oy, ox);
  }

  /** The input tensor, zero outside its bounds; the weights [oc][ic][kh][kw]. */
  function Pixels(op: Op, data: seq<int>): Image {
    (ci, y, x) => if 0 <= y < op.h && 0 <= x < op.w then At(data, ci * op.h * op.w + y * op.w + x) else 0
  }
  function Weights(op: Op, w: seq<int>): Kernel {
    (oc, ic, kr, kc) => At(w, oc * op.K() + (Flat(op.kh, op.kw, ic, kr, kc)))
  }

  /** The direct convolution at output pixel (oy, ox). */
  function Direct(op: Op, data: seq<int>, w: seq<int>, n: int, oy: int, ox: int): int {
    Convolve(op.Geometry(), Pixels(op, data), Weights(op, w), n, oy, ox)
  }

  // ---------------------------------------------------------------- im2col as a sum

  /** Element k of the patch of output pixel (oy, ox): the pixel under kernel element k. */
  function Patch(op: Op, data: seq<int>, oy: int, ox: int, k: int): int
    requires op.Valid()
  {
    var i := Decode(op.kh, op.kw, 1, k);
    Pixels(op, data)(i.a, oy * op.stride - op.pad + i.b, ox * op.stride - op.pad + i.c)
  }

  lemma PatchAt(op: Op, data: seq<int>, oy: int, ox: int, ic: int, kr: int, kc: int)
    requires op.Valid() && 0 <= ic < op.c && 0 <= kr < op.kh && 0 <= kc < op.kw
    ensures 0 <= Flat(op.kh, op.kw, ic, kr, kc) < op.K()
    ensures Patch(op, data, oy, ox, Flat(op.kh, op.kw, ic, kr, kc))
         == Pixels(op, data)(ic, oy * op.stride - op.pad + kr, ox * op.stride - op.pad + kc)
  {
    DecodeEncode(op.c, op.kh, op.kw, 1, ic, kr, kc, 0);
    assert Encode(op.kh, op.kw, 1, ic, kr, kc, 0) == Flat(op.kh, op.kw, ic, kr, kc);
  }

  lemma LastLine(l: nat, g: int -> int, base: nat, f: (int, int, int) -> int, i: int, j: nat, at: int)
    requires at == base + j * l && forall k :: 0 <= k < l ==> f(i, j, k) == g(base + (j * l + k))
    ensures at >= 0 && base + (j + 1) * l == at + l && Sum(at + l, g) == Sum(at, g) + Line(l, f, i, j)
  {
    MulLe(0, j, l, l);
    assert (j + 1) * l == j * l + l;
    var line := Cells(f, i, j);
    forall k | 0 <= k < l ensures line(k) == g(at + k) { assert f(i, j, k) == g(base + (j * l + k)); }
    SumSplit(at, l, g, line);
  }

  /** A plane is one sum over its row-major numbers, counted from `base`. */
  lemma {:induction false} FlattenPlane(m: nat, l: nat, g: int -> int, base: nat, f: (int, int, int) -> int, i: int)
    requires forall j, k :: 0 <= j < m && 0 <= k < l ==> f(i, j, k) == g(base + (j * l + k))
    ensures Sum(base + m * l, g) == Sum(base, g) + Plane(m, l, f, i)
  {
    hide Line;
    if m > 0 {
      FlattenPlane(m - 1, l, g, base, f, i);
      LastLine(l, g, base, f, i, m - 1, base + (m - 1) * l);
      PlaneMore(m, l, f, i);
    }
  }

  lemma PlaneMore(m: nat, l: nat, f: (int, int, int) -> int, i: int)
    requires m > 0
    ensures Plane(m, l, f, i) == Plane(m - 1, l, f, i) + Line(l, f, i, m - 1)
  {
  }

  function Flat(m: int, l: int, i: int, j: int, k: int): int { (i * m + j) * l + k }

  /** Three nested sums are one sum over the row-major number. */
  lemma {:induction false} SumFlatten3(n: nat, m: nat, l: nat, g: int -> int, f: (int, int, int) -> int)
    requires forall i, j, k :: 0 <= i < n && 0 <= j < m && 0 <= k < l ==> f(i, j, k) == g(Flat(m, l, i, j, k))
    ensures Sum(n * m * l, g) == Sum3(n, m, l, f)
  {
    hide Flat, Plane;
    if n > 0 {
      SumFlatten3(n - 1, m, l, g, f);
      LastPlane(n - 1, m, l, g, f);
      Distribute(n, m, l);
      assert Planes(m, l, f)(n - 1) == Plane(m, l, f, n - 1);
    }
  }

  lemma LastPlane(i: nat, m: nat, l: nat, g: int -> int, f: (int, int, int) -> int)
    requires forall j, k :: 0 <= j < m && 0 <= k < l ==> f(i, j, k) == g(Flat(m, l, i, j, k))
    ensures Sum(i * m * l + m * l, g) == Sum(i * m * l, g) + Plane(m, l, f, i)
  {
    var base := i * m * l;
    forall j, k | 0 <= j < m && 0 <= k < l ensures f(i, j, k) == g(base + (j * l + k)) { Regroup(i, m, j, l, k); }
    FlattenPlane(m, l, g, base, f, i);
  }

  lemma Distribute(n: nat, m: nat, l: nat)
    requires n > 0
    ensures (n - 1) * m * l + m * l == n * m * l
  {
    assert (n - 1) * m + m == n * m;
    assert ((n - 1) * m + m) * l == (n - 1) * m * l + m * l;
  }

  lemma Regroup(i: int, m: int, j: int, l: int, k: int)
    ensures Flat(m, l, i, j, k) == i * m * l + (j * l + k)
  {
    assert (i * m + j) * l == i * m * l + j * l;
  }

  /** One lane of the im2col dot product. */
  function Lane(op: Op, data: seq<int>, w: seq<int>, n: int, oy: int, ox: int, k: int): int
    requires op.Valid()
  {
    Patch(op, data, oy, ox, k) * At(w, n * op.K() + k)
  }

  lemma LaneAt(op: Op, data: seq<int>, w: seq<int>, n: int, oy: int, ox: int, ic: int, kr: int, kc: int)
    requires op.Valid() && 0 <= ic < op.c && 0 <= kr < op.kh && 0 <= kc < op.kw
    ensures 0 <= Flat(op.kh, op.kw, ic, kr, kc) < op.K()
    ensures Product(op.Geometry(), Pixels(op, data), Weights(op, w), n, oy, ox)(ic, kr, kc)
         == Lane(op, data, w, n, oy, ox, Flat(op.kh, op.kw, ic, kr, kc))
  {
    PatchAt(op, data, oy, ox, ic, kr, kc);
  }

  /** A dot product over the patch, padding lanes included, is the direct convolution. */
  lemma PatchDotIsConvolution(op: Op, data: seq<int>, w: seq<int>, n: int, oy: int, ox: int, f: int -> int)
    requires op.Valid()
    requires forall k :: 0 <= k < op.K() ==> f(k) == Lane(op, data, w, n, oy, ox, k)
    requires forall k :: op.K() <= k < op.Kp() ==> f(k) == 0
    ensures Sum(op.Kp(), f) == Direct(op, data, w, n, oy, ox)
  {
    TiledMatmul.CeilCounts(op.K(), 32);
    SumPrefix(op.K(), op.Kp(), f);
    LanesFlatten(op, data, w, n, oy, ox, f);
  }

  lemma LanesFlatten(op: Op, data: seq<int>, w: seq<int>, n: int, oy: int, ox: int, f: int -> int)
    requires op.Valid()
    requires forall k :: 0 <= k < op.K() ==> f(k) == Lane(op, data, w, n, oy, ox, k)
    ensures Sum(op.K(), f) == Direct(op, data, w, n, oy, ox)
  {
    var products := Product(op.Geometry(), Pixels(op, data), Weights(op, w), n, oy, ox);
    forall i, j, k | 0 <= i < op.c && 0 <= j < op.kh && 0 <= k < op.kw ensures products(i, j, k) == f(Flat(op.kh, op.kw, i, j, k)) {
      LaneAt(op, data, w, n, oy, ox, i, j, k);
    }
    SumFlatten3(op.c, op.kh, op.kw, f, products);
  }

  // ---------------------------------------------------------------- resident weights

  /** The resident buffer holds weight [n][k] at its tile place, zeros in the padding lanes. */
  ghost predicate Prelaid(op: Op, wbuf: seq<int>, w: seq<int>) {
    forall n, k :: 0 <= n < op.outC && 0 <= k < op.Kp() ==>
      At(wbuf, WeightPlace(op, n, k)) == if k < op.K() then At(w, n * op.K() + k) else 0
  }

  function WeightPlace(op: Op, n: int, k: int): int { WeightInt8(op.Kp(), n + 1, k + 1) }

  lemma WeightPlaceInRange(op: Op, n: int, k: int)
    requires 0 <= n < op.outC && 0 <= k < op.Kp()
    ensures 0 <= WeightPlace(op, n, k) < op.Kp() * op.Np()
  {
    WholeInRange(op.Kp(), op.outC, n + 1, k + 1);
  }

  lemma WeightPlacesDistinct(op: Op, n: int, k: int, n': int, k': int)
    requires 0 <= n < op.outC && 0 <= k < op.Kp() && 0 <= n' < op.outC && 0 <= k' < op.Kp()
    requires WeightPlace(op, n, k) == WeightPlace(op, n', k')
    ensures n == n' && k == k'
  {
    PaddedK(op);
    hide Op.Kp, WeightInt8;
    WeightInjective(op.Kp(), op.outC, n + 1, k + 1, n' + 1, k' + 1);
  }

  lemma PaddedK(op: Op)
    ensures op.K() <= op.Kp() < op.K() + 32 && op.Kp() % 32 == 0
  {
    TiledMatmul.CeilCounts(op.K(), 32);
  }

  /** What is laid out after `n` full kernels and k elements of the next; zeros elsewhere. */
  ghost predicate LaidOut(op: Op, wbuf: seq<int>, w: seq<int>, n: int, k: int) {
    forall i, j :: 0 <= i < op.outC && 0 <= j < op.Kp() ==>
      At(wbuf, WeightPlace(op, i, j)) == if j < op.K() && (i < n || (i == n && j < k)) then At(w, i * op.K() + j) else 0
  }

  lemma LayOne(op: Op, wbuf: seq<int>, w: seq<int>, n: int, k: int)
    requires LaidOut(op, wbuf, w, n, k) && 0 <= n < op.outC && 0 <= k < op.K() && |wbuf| == op.Kp() * op.Np()
    ensures 0 <= WeightPlace(op, n, k) < |wbuf|
    ensures LaidOut(op, wbuf[WeightPlace(op, n, k) := At(w, n * op.K() + k)], w, n, k + 1)
  {
    PaddedK(op);
    WeightPlaceInRange(op, n, k);
    forall i, j | 0 <= i < op.outC && 0 <= j < op.Kp() && WeightPlace(op, i, j) == WeightPlace(op, n, k) ensures i == n && j == k {
      WeightPlacesDistinct(op, i, j, n, k);
    }
  }

  lemma WeightIndex(op: Op, n: nat, k: nat)
    requires n < op.outC && k < op.K()
    ensures 0 <= n * op.K() + k < op.outC * op.K()
  {
    DigitsBound(op.K(), op.outC, n, k);
  }

  /** prelayout_conv_weight, given memory. */
  method PrelayoutConvWeight(op: Op, w: seq<int>) returns (wbuf: array<int>)
    requires |w| == op.outC * op.K()
    ensures fresh(wbuf) && wbuf.Length == op.Kp() * op.Np() && Prelaid(op, wbuf[..], w)
  {
    wbuf := new int[op.Kp() * op.Np()](_ => 0);
    NothingLaid(op, wbuf[..], w);
    hide LaidOut, Prelaid, Op.Kp, Op.Np;
    for n := 0 to op.outC
      invariant LaidOut(op, wbuf[..], w, n, 0)
    {
      LayKernel(op, w, wbuf, n);
      RowLaid(op, wbuf[..], w, n);
    }
    AllLaid(op, wbuf[..], w);
  }

  /** One kernel's weights. */
  method LayKernel(op: Op, w: seq<int>, wbuf: array<int>, n: nat)
    requires |w| == op.outC * op.K() && wbuf.Length == op.Kp() * op.Np() && n < op.outC && LaidOut(op, wbuf[..], w, n, 0)
    modifies wbuf
    ensures LaidOut(op, wbuf[..], w, n, op.K())
  {
    hide LaidOut, WeightInt8;
    for k := 0 to op.K()
      invariant LaidOut(op, wbuf[..], w, n, k)
    {
      WeightIndex(op, n, k);
      LayOne(op, wbuf[..], w, n, k);
      ghost var was := wbuf[..];
      var dst, v := WeightInt8(op.Kp(), n + 1, k + 1), w[n * op.K() + k];
      wbuf[dst] := v;
      assert wbuf[..] == was[dst := v];
    }
  }

  lemma NothingLaid(op: Op, wbuf: seq<int>, w: seq<int>)
    requires forall i :: 0 <= i < |wbuf| ==> wbuf[i] == 0
    ensures LaidOut(op, wbuf, w, 0, 0)
  {
  }

  lemma RowLaid(op: Op, wbuf: seq<int>, w: seq<int>, n: nat)
    requires LaidOut(op, wbuf, w, n, op.K())
    ensures LaidOut(op, wbuf, w, n + 1, 0)
  {
  }

  lemma AllLaid(op: Op, wbuf: seq<int>, w: seq<int>)
    requires LaidOut(op, wbuf, w, op.outC, 0)
    ensures Prelaid(op, wbuf, w)
  {
  }

  // ---------------------------------------------------------------- im2col

  /** Place of lane k of row r in a block of mb rows, by kbase and row16. */
  function FeatPlace(mb: nat, r: int, k: int): int { k / 16 * mb * 16 + k % 16 + r * 16 }

  lemma FeatPlaceIsLayout(mb: nat, r: int, k: int)
    ensures FeatPlace(mb, r, k) == FeatureData(mb, 1, 16, k + 1, r + 1, 1)
  {
    assert k / 16 * mb * 1 * 16 == k / 16 * mb * 16;
  }

  lemma FeatPlaceInRange(op: Op, mb: nat, r: int, k: int)
    requires 0 <= r < mb && 0 <= k < op.Kp()
    ensures 0 <= FeatPlace(mb, r, k) < op.Kp() * mb
  {
    FeatPlaceIsLayout(mb, r, k);
    FeatureInRange(op.Kp(), mb, 1, 16, k + 1, r + 1, 1);
    PaddedK(op);
    hide Op.Kp, FeatPlace, FeatureData;
    WholePlanes(op.Kp(), mb);
  }

  lemma WholePlanes(k: nat, mb: nat)
    requires k % 32 == 0
    ensures CeilDiv(k, 16) * (mb * 1) * 16 == k * mb
  {
    var q := CeilDiv(k, 16);
    assert q * 16 == k;
    hide CeilDiv;
    assert q * (mb * 1) * 16 == q * 16 * mb;
  }

  lemma FeatPlacesDistinct(mb: nat, r: int, k: int, r': int, k': int)
    requires 0 <= r < mb && 0 <= r' < mb && 0 <= k && 0 <= k' && FeatPlace(mb, r, k) == FeatPlace(mb, r', k')
    ensures r == r' && k == k'
  {
    FeatPlaceIsLayout(mb, r, k);
    FeatPlaceIsLayout(mb, r', k');
    FeatureInjective(mb, 1, 16, k + 1, r + 1, 1, k' + 1, r' + 1, 1);
  }

  /** Lane k of block row r: the patch of output pixel m0 + r, zero in the padding lanes. */
  function RowLane(op: Op, data: seq<int>, mm: int, k: int): int
    requires op.Valid()
  {
    if 0 <= k < op.K() then Patch(op, data, mm / op.OutW(), mm % op.OutW(), k) else 0
  }

  /** The block after `row` full rows and k lanes of the next. */
  ghost predicate Filled(op: Op, data: seq<int>, feat: seq<int>, m0: nat, mb: nat, row: int, k: int)
    requires op.Valid()
  {
    && |feat| >= op.Kp() * mb
    && forall r, c :: 0 <= r < mb && 0 <= c < op.Kp() ==>
         At(feat, FeatPlace(mb, r, c)) == if r < row || (r == row && c < k) then RowLane(op, data, m0 + r, c) else 0
  }

  lemma FillOne(op: Op, data: seq<int>, feat: seq<int>, m0: nat, mb: nat, row: int, k: int, v: int)
    requires op.Valid() && Filled(op, data, feat, m0, mb, row, k) && 0 <= row < mb && 0 <= k < op.K()
    requires v == RowLane(op, data, m0 + row, k)
    ensures 0 <= FeatPlace(mb, row, k) < |feat|
    ensures Filled(op, data, feat[FeatPlace(mb, row, k) := v], m0, mb, row, k + 1)
  {
    PaddedK(op);
    FeatPlaceInRange(op, mb, row, k);
    forall r, c | 0 <= r < mb && 0 <= c < op.Kp() && FeatPlace(mb, r, c) == FeatPlace(mb, row, k) ensures r == row && c == k {
      FeatPlacesDistinct(mb, r, c, row, k);
    }
  }

  lemma RowFilled(op: Op, data: seq<int>, feat: seq<int>, m0: nat, mb: nat, row: int)
    requires op.Valid() && Filled(op, data, feat, m0, mb, row, op.K())
    ensures Filled(op, data, feat, m0, mb, row + 1, 0)
  {
  }
}
