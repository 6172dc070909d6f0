/** yolo_conv_npu (src/yolo/yolo_conv.c): im2col, the generated matmul tiles and readback,
    block by block; what they leave in the output, and when that is the convolution. */
module YoloConvNpu {
  import opened Sums
  import opened Layout
  import opened Scatter
  import opened Conv
  import opened YoloConv
  import TiledMatmul

  /** What run_matmul returns for one block: the code of gen_matmul_int8_tiled, or -10 for
      more tiles than the register buffer holds. */
  function MatmulCode(m: nat, k: nat, n: nat): int
    requires k > 0
  {
    hide TiledMatmul.WeightBytes, TiledMatmul.Banks, TiledMatmul.MaxRows, TiledMatmul.Bytes;
    if TiledMatmul.Banks(TiledMatmul.WeightBytes(k, n)) >= TiledMatmul.BANKS then -2
    else if TiledMatmul.MaxRows(k, n) == 0 then -1
    else if m <= TiledMatmul.MaxRows(k, n) then
      if TiledMatmul.Banks(TiledMatmul.Bytes(m, k)) > TiledMatmul.BANKS - 1 then -1 else if k > TiledMatmul.BANK then -2 else 0
    else if CeilDiv(m, TiledMatmul.MaxRows(k, n)) > MAX_TILES then -10 else 0
  }

  function BlockRows(op: Op, m0: nat): nat
    requires op.Valid() && m0 <= op.M()
  {
    if op.M() - m0 > M_BLOCK then M_BLOCK else op.M() - m0
  }

  /** The first nonzero code among the blocks from row m0 on, 0 if all succeed. */
  function BlocksCode(op: Op, m0: nat): int
    requires op.Valid() && m0 <= op.M()
    decreases op.M() - m0
  {
    if m0 == op.M() then 0
    else
      SizesFit(op);
      var mb := BlockRows(op, m0);
      if MatmulCode(mb, op.Kp(), op.Np()) != 0 then MatmulCode(mb, op.Kp(), op.Np()) else BlocksCode(op, m0 + mb)
  }

  /** What the engine computed for one block, where the readback looks for it. */
  ghost predicate Multiplied(feat: seq<int>, wt: seq<int>, dev: seq<int>, m: nat, k: nat, n: nat) {
    forall r, ch :: 0 <= r < m && 0 <= ch < n ==>
      At(dev, OutPlace(m, r, ch)) == TiledMatmul.EngineDot(feat, wt, m, k, r, ch)
  }

  /** nbase[ch] + row * 4 */
  function OutPlace(m: nat, r: int, ch: int): int { ch / 4 * m * 4 + ch % 4 + r * 4 }

  lemma OutPlaceIsLayout(m: nat, r: int, ch: int)
    ensures OutPlace(m, r, ch) == FeatureData(m, 1, 4, ch + 1, r + 1, 1)
  {
    assert ch / 4 * m * 1 * 4 == ch / 4 * m * 4;
  }

  lemma OutPlaceInRange(m: nat, n: nat, r: int, ch: int)
    requires n % 4 == 0 && 0 <= r < m && 0 <= ch < n
    ensures 0 <= OutPlace(m, r, ch) < n * m
  {
    OutPlaceIsLayout(m, r, ch);
    FeatureInRange(n, m, 1, 4, ch + 1, r + 1, 1);
    assert CeilDiv(n, 4) * 4 == n;
    assert CeilDiv(n, 4) * (m * 1) * 4 == n * m;
  }

  // ---------------------------------------------------------------- which element is used

  /** Index in the input of the element that lane k of output pixel mm stands for; -1 in the
      zero padding of the image and of the lanes. */
  function Element(op: Op, mm: int, k: int): int
    requires op.Valid()
  {
    if !(0 <= k < op.K()) then -1
    else
      var i := Decode(op.kh, op.kw, 1, k);
      var (y, x) := (mm / op.OutW() * op.stride - op.pad + i.b, mm % op.OutW() * op.stride - op.pad + i.c);
      if 0 <= y < op.h && 0 <= x < op.w then i.a * op.h * op.w + y * op.w + x else -1
  }

  lemma LaneIsElement(op: Op, data: seq<int>, mm: int, k: int)
    requires op.Valid()
    ensures RowLane(op, data, mm, k) == At(data, Element(op, mm, k))
  {
  }

  /** 16-byte unit fetched for lane k of row r in a block of mb rows. */
  function Unit(mb: nat, r: nat, k: nat): nat {
    MulLe(0, k / 16, 0, TiledMatmul.PlaneRows(mb));
    k / 16 * TiledMatmul.PlaneRows(mb) + r
  }

  /** Row of the block in whose place that unit lies. */
  function ServingRow(mb: nat, r: nat, k: nat): (row: nat)
    requires mb > 0
    ensures row < mb
  {
    DivMod(Unit(mb, r, k), mb);
    Unit(mb, r, k) % mb
  }

  /** And the lane. */
  function ServingLane(mb: nat, r: nat, k: nat): nat
    requires mb > 0
  {
    DivMod(Unit(mb, r, k), mb);
    Unit(mb, r, k) / mb * 16 + k % 16
  }

  lemma ServingPlace(mb: nat, r: nat, k: nat)
    requires r < mb
    ensures ServingLane(mb, r, k) <= k
    ensures TiledMatmul.Fetched(mb, r, k) == FeatPlace(mb, ServingRow(mb, r, k), ServingLane(mb, r, k))
  {
    hide TiledMatmul.PlaneRows;
    TiledMatmul.PlaneStride(mb);
    var (p, u) := (k / 16, Unit(mb, r, k));
    MulLe(p, p, TiledMatmul.PlaneRows(mb), mb);
    UnitPlane(u, p, r, mb, k % 16);
    UnitPlace(u, mb, k % 16);
  }

  lemma UnitPlane(u: nat, p: nat, r: nat, mb: nat, lane: nat)
    requires mb > 0 && r < mb && u <= p * mb + r && lane < 16
    ensures u / mb * 16 + lane <= p * 16 + lane
  {
    DivMod(u, mb);
    Step(p + 1, u / mb, mb);
    assert p * mb + mb == (p + 1) * mb;
  }

  lemma UnitPlace(u: nat, mb: nat, lane: nat)
    requires mb > 0 && lane < 16
    ensures u * 16 + lane == FeatPlace(mb, u % mb, u / mb * 16 + lane)
  {
    DivMod(u, mb);
    QuotRem(16, u / mb, lane);
    assert u / mb * mb * 16 + u % mb * 16 == u * 16;
  }

  /** First row of the block of output pixel mm. */
  function BlockStart(mm: nat): nat { mm / M_BLOCK * M_BLOCK }

  /** The element that the engine really uses for lane k of output pixel mm. */
  function Served(op: Op, mm: nat, k: nat): int
    requires op.Valid() && mm < op.M()
  {
    var m0 := BlockStart(mm);
    var mb := BlockRows(op, m0);
    Element(op, m0 + ServingRow(mb, mm - m0, k), ServingLane(mb, mm - m0, k))
  }

  /** A weighted sum of elements, as output pixel mm of kernel n. */
  function Weighted(op: Op, data: seq<int>, w: seq<int>, n: int, from: int -> int): int {
    Sum(op.K(), WeightedTerm(op, data, w, n, from))
  }

  function WeightedTerm(op: Op, data: seq<int>, w: seq<int>, n: int, from: int -> int): int -> int {
    k => At(data, from(k)) * At(w, n * op.K() + k)
  }

  function Elements(op: Op, mm: nat): int -> int
    requires op.Valid()
  {
    k => Element(op, mm, k)
  }

  function Servings(op: Op, mm: nat): int -> int
    requires op.Valid() && mm < op.M()
  {
    k => if k >= 0 then Served(op, mm, k) else -1
  }

  /** What the device leaves for output pixel mm of kernel n. */
  function DeviceAt(op: Op, data: seq<int>, w: seq<int>): (int, int) -> int
    requires op.Valid()
  {
    (n, mm) => if 0 <= mm < op.M() then Weighted(op, data, w, n, Servings(op, mm)) else 0
  }

  /** The direct convolution at flat output pixel mm of kernel n. */
  function DirectAt(op: Op, data: seq<int>, w: seq<int>): (int, int) -> int
    requires op.Valid()
  {
    (n, mm) => Direct(op, data, w, n, mm / op.OutW(), mm % op.OutW())
  }

  /** The direct convolution is the weighted sum of the lanes' own elements. */
  lemma DirectIsWeighted(op: Op, data: seq<int>, w: seq<int>, n: int, mm: nat)
    requires op.Valid()
    ensures DirectAt(op, data, w)(n, mm) == Weighted(op, data, w, n, Elements(op, mm))
  {
    SomeColumns(op);
    hide WeightedTerm, Elements, Op.Valid, Op.OutW, Op.K;
    var f := WeightedTerm(op, data, w, n, Elements(op, mm));
    forall k | 0 <= k < op.K() ensures f(k) == Lane(op, data, w, n, mm / op.OutW(), mm % op.OutW(), k) {
      TermIsLane(op, data, w, n, mm, k);
    }
    LanesFlatten(op, data, w, n, mm / op.OutW(), mm % op.OutW(), f);
  }

  lemma SomeColumns(op: Op)
    requires op.Valid()
    ensures op.OutW() > 0
  {
  }

  lemma TermIsLane(op: Op, data: seq<int>, w: seq<int>, n: int, mm: nat, k: nat)
    requires op.Valid() && k < op.K()
    ensures op.OutW() > 0 && WeightedTerm(op, data, w, n, Elements(op, mm))(k) == Lane(op, data, w, n, mm / op.OutW(), mm % op.OutW(), k)
  {
    LaneIsElement(op, data, mm, k);
  }

  // ---------------------------------------------------------------- when that is the convolution

  /** Every lane of every output pixel is served by its own element. */
  ghost predicate Straight(op: Op)
    requires op.Valid()
  {
    forall mm: nat, k: nat :: mm < op.M() && k < op.K() ==> Served(op, mm, k) == Element(op, mm, k)
  }

  /** All lanes in one plane, or a last block of a multiple of 4 rows or of one row. */
  predicate Aligned(op: Op)
    requires op.Valid()
  {
    op.K() <= 16 || op.M() % 4 == 0 || op.M() % M_BLOCK == 1
  }

  ghost predicate Tensors(op: Op, data: seq<int>, w: seq<int>) {
    && |data| == op.c * op.h * op.w && |w| == op.outC * op.K()
    && (forall i :: 0 <= i < |data| ==> -128 <= data[i] <= 127) && forall i :: 0 <= i < |w| ==> -128 <= w[i] <= 127
  }

  lemma StraightIsDirect(op: Op, data: seq<int>, w: seq<int>, n: int, mm: nat)
    requires op.Valid() && Straight(op) && mm < op.M()
    ensures DeviceAt(op, data, w)(n, mm) == DirectAt(op, data, w)(n, mm)
  {
    hide Weighted, DeviceAt, DirectAt, Served, Element, Op.Valid, Op.M, Op.K;
    DirectIsWeighted(op, data, w, n, mm);
    DeviceIs(op, data, w, n, mm);
    forall k: nat | k < op.K() ensures Servings(op, mm)(k) == Elements(op, mm)(k) { assert Served(op, mm, k) == Element(op, mm, k); }
    WeightedCong(op, data, w, n, Servings(op, mm), Elements(op, mm));
  }

  lemma DeviceIs(op: Op, data: seq<int>, w: seq<int>, n: int, mm: nat)
    requires op.Valid() && mm < op.M()
    ensures DeviceAt(op, data, w)(n, mm) == Weighted(op, data, w, n, Servings(op, mm))
  {
  }

  lemma WeightedCong(op: Op, data: seq<int>, w: seq<int>, n: int, from: int -> int, from': int -> int)
    requires forall k: nat :: k < op.K() ==> from(k) == from'(k)
    ensures Weighted(op, data, w, n, from) == Weighted(op, data, w, n, from')
  {
    hide WeightedTerm, Op.K;
    forall k: nat | k < op.K() ensures WeightedTerm(op, data, w, n, from)(k) == WeightedTerm(op, data, w, n, from')(k) {
      SameTerm(op, data, w, n, from, from', k);
    }
    SumCong(op.K(), WeightedTerm(op, data, w, n, from), WeightedTerm(op, data, w, n, from'));
  }

  lemma SameTerm(op: Op, data: seq<int>, w: seq<int>, n: int, from: int -> int, from': int -> int, k: nat)
    requires from(k) == from'(k)
    ensures WeightedTerm(op, data, w, n, from)(k) == WeightedTerm(op, data, w, n, from')(k)
  {
  }

  /** A lane served by a foreign element: one input and one weight set to 1 show it. */
  lemma ForeignShows(op: Op, mm: nat, k: nat) returns (data: seq<int>, w: seq<int>)
    requires op.Valid() && mm < op.M() && k < op.K() && Served(op, mm, k) != Element(op, mm, k)
    ensures Tensors(op, data, w) && DeviceAt(op, data, w)(0, mm) != DirectAt(op, data, w)(0, mm)
  {
    hide Weighted, DeviceAt, DirectAt, Served, Element, Op.Valid, Op.M;
    var (s, e) := (Served(op, mm, k), Element(op, mm, k));
    ServedInside(op, mm, k);
    ElementInside(op, mm, k);
    WeightCount(op);
    var size := op.c * op.h * op.w;
    data := OneHot(size, if e >= 0 then e else s);
    w := OneHot(op.outC * op.K(), k);
    DirectIsWeighted(op, data, w, 0, mm);
    DeviceIs(op, data, w, 0, mm);
    OneLane(op, data, w, Servings(op, mm), k);
    OneLane(op, data, w, Elements(op, mm), k);
    OneHotAt(size, if e >= 0 then e else s, s);
    OneHotAt(size, if e >= 0 then e else s, e);
  }

  lemma WeightCount(op: Op)
    requires op.Valid()
    ensures op.outC * op.K() >= op.K()
  {
    MulLe(1, op.outC, op.K(), op.K());
  }

  /** With a single weight, kernel 0 yields one input element. */
  lemma OneLane(op: Op, data: seq<int>, w: seq<int>, from: int -> int, k: nat)
    requires k < op.K() <= |w| && w == OneHot(|w|, k)
    ensures Weighted(op, data, w, 0, from) == At(data, from(k))
  {
    var f := WeightedTerm(op, data, w, 0, from);
    forall j | 0 <= j < op.K() ensures f(j) == if j == k then At(data, from(k)) else 0 { OneHotAt(|w|, k, j); }
    SumOne(op.K(), f, k);
  }

  lemma ElementInside(op: Op, mm: nat, k: nat)
    requires op.Valid()
    ensures -1 <= Element(op, mm, k) < op.c * op.h * op.w
  {
    MulLe(0, op.c, 0, op.h);
    MulLe(0, op.c * op.h, 0, op.w);
    if k < op.K() {
      var i := Decode(op.kh, op.kw, 1, k);
      LaneDigits(op, k);
      var (y, x) := (mm / op.OutW() * op.stride - op.pad + i.b, mm % op.OutW() * op.stride - op.pad + i.c);
      if 0 <= y < op.h && 0 <= x < op.w { PixelInside(op, i.a, y, x); }
    }
  }

  lemma LaneDigits(op: Op, k: nat)
    requires op.Valid() && k < op.K()
    ensures
      var i := Decode(op.kh, op.kw, 1, k);
      0 <= i.a < op.c && 0 <= i.b < op.kh && 0 <= i.c < op.kw
  {
    EncodeDecode(op.c, op.kh, op.kw, 1, k);
  }

  lemma PixelInside(op: Op, c: int, y: int, x: int)
    requires 0 <= c < op.c && 0 <= y < op.h && 0 <= x < op.w
    ensures 0 <= c * op.h * op.w + y * op.w + x < op.c * op.h * op.w
  {
    DigitsBound(op.h, op.c, c, y);
    DigitsBound(op.w, op.c * op.h, c * op.h + y, x);
    assert (c * op.h + y) * op.w == c * op.h * op.w + y * op.w;
  }

  lemma ServedInside(op: Op, mm: nat, k: nat)
    requires op.Valid() && mm < op.M()
    ensures -1 <= Served(op, mm, k) < op.c * op.h * op.w
  {
    var m0 := BlockStart(mm);
    var mb := BlockRows(op, m0);
    ElementInside(op, m0 + ServingRow(mb, mm - m0, k), ServingLane(mb, mm - m0, k));
  }

  /** The device computes the convolution for every input and all weights exactly when every
      lane is served by its own element; that can be read off the operator's sizes. */
  lemma ConvolvesIff(op: Op)
    requires op.Valid()
    ensures (forall data, w, n: nat, mm: nat :: Tensors(op, data, w) && n < op.outC && mm < op.M() ==>
               DeviceAt(op, data, w)(n, mm) == DirectAt(op, data, w)(n, mm))
       <==> Straight(op)
  {
    if Straight(op) {
      forall data, w, n: nat, mm: nat | Tensors(op, data, w) && n < op.outC && mm < op.M()
        ensures DeviceAt(op, data, w)(n, mm) == DirectAt(op, data, w)(n, mm)
      {
        StraightIsDirect(op, data, w, n, mm);
      }
    } else {
      var mm: nat, k: nat :| mm < op.M() && k < op.K() && Served(op, mm, k) != Element(op, mm, k);
      var data, w := ForeignShows(op, mm, k);
      assert Tensors(op, data, w) && 0 < op.outC;
    }
  }

  lemma ServedInPlace(op: Op, mm: nat, k: nat)
    requires op.Valid() && Aligned(op) && mm < op.M() && k < op.K()
    ensures Served(op, mm, k) == Element(op, mm, k)
  {
    hide Served, Element, Op.Valid, Op.M, Op.K;
    StartOf(op, mm);
    var m0 := BlockStart(mm);
    var mb := BlockRows(op, m0);
    BlockAligned(op, m0);
    TiledMatmul.PlaneStride(mb);
    DivMod(k, 16);
    ServerIs(op, m0, mb, mm - m0, k, k / 16, mm - m0);
  }

  lemma StartOf(op: Op, mm: nat)
    requires op.Valid() && mm < op.M()
    ensures
      var m0 := BlockStart(mm);
      m0 <= mm && BlockOf(op, m0, BlockRows(op, m0)) && mm - m0 < BlockRows(op, m0)
  {
    hide Op.Valid, Op.M;
    DivMod(mm, 1024);
    QuotRem(1024, mm / 1024, 0);
  }

  lemma BlockAligned(op: Op, m0: nat)
    requires op.Valid() && Aligned(op) && m0 % M_BLOCK == 0 && m0 < op.M()
    ensures op.K() <= 16 || BlockRows(op, m0) % 4 == 0 || BlockRows(op, m0) == 1
  {
    LastRows(op.M(), m0, BlockRows(op, m0));
  }

  lemma LastRows(m: nat, m0: nat, mb: nat)
    requires m0 % M_BLOCK == 0 && m0 < m && mb == if m - m0 > M_BLOCK then M_BLOCK else m - m0
    ensures m % 4 == 0 || m % M_BLOCK == 1 ==> mb % 4 == 0 || mb == 1
  {
    var q := m0 / M_BLOCK;
    assert m0 == q * 1024;
    if mb == M_BLOCK { assert mb % 4 == 0; } else { LastRemainders(q, mb); }
  }

  lemma LastRemainders(q: nat, mb: nat)
    requires mb <= 1024
    ensures (q * 1024 + mb) % 4 == mb % 4
    ensures mb < 1024 ==> (q * 1024 + mb) % 1024 == mb
  {
    DivMod(mb, 4);
    QuotRem(4, q * 256 + mb / 4, mb % 4);
    if mb < 1024 { QuotRem(1024, q, mb); }
  }

  lemma AlignedIsStraight(op: Op)
    requires op.Valid() && Aligned(op)
    ensures Straight(op)
  {
    forall mm: nat, k: nat | mm < op.M() && k < op.K() ensures Served(op, mm, k) == Element(op, mm, k) { ServedInPlace(op, mm, k); }
  }

  /** One lane stands for different elements at different output pixels. */
  lemma ElementDistinct(op: Op, mm: nat, mm': nat, k: nat)
    requires op.Valid() && k < op.K() && Element(op, mm, k) == Element(op, mm', k) >= 0
    ensures mm == mm'
  {
    var i := Decode(op.kh, op.kw, 1, k);
    var ow := op.OutW();
    var (y, x, y', x') := (mm / ow * op.stride - op.pad + i.b, mm % ow * op.stride - op.pad + i.c,
                           mm' / ow * op.stride - op.pad + i.b, mm' % ow * op.stride - op.pad + i.c);
    Digits(op.w, y, x, y', x');
    SameFactor(mm / ow, mm' / ow, op.stride);
    SameFactor(mm % ow, mm' % ow, op.stride);
    DivMod(mm, ow);
    DivMod(mm', ow);
  }

  lemma SameFactor(a: int, b: int, s: nat)
    requires s > 0 && a * s == b * s
    ensures a == b
  {
    Step(a, b, s);
    Step(b, a, s);
  }

  /** Rows that the last block has beyond its plane stride. */
  function Excess(mb: nat): int { mb - TiledMatmul.PlaneRows(mb) }

  /** Otherwise, lane 16 of some row of the last block is fetched from an earlier row: the
      lane is served wrongly wherever it or its server lies inside the image. */
  lemma MisalignedIsForeign(op: Op, m0: nat, mb: nat, r: nat)
    requires op.Valid() && !Aligned(op) && BlockOf(op, m0, mb) && m0 + mb == op.M()
    requires Excess(mb) <= r < mb
    requires Element(op, m0 + r, 16) >= 0 || Element(op, m0 + r - Excess(mb), 16) >= 0
    ensures Served(op, m0 + r, 16) != Element(op, m0 + r, 16) && !Straight(op)
  {
    LastMisaligned(op.M(), m0, mb);
    TiledMatmul.PlaneStride(mb);
    ServedIs(op, m0, mb, r, 16);
    QuotRem(mb, 1, r - Excess(mb));
    assert Unit(mb, r, 16) == 1 * mb + (r - Excess(mb));
    if Element(op, m0 + r, 16) == Element(op, m0 + r - Excess(mb), 16) {
      ElementDistinct(op, m0 + r, m0 + r - Excess(mb), 16);
    }
  }

  lemma LastMisaligned(m: nat, m0: nat, mb: nat)
    requires m0 % M_BLOCK == 0 && m0 < m == m0 + mb && m % 4 != 0 && m % M_BLOCK != 1 && mb <= M_BLOCK
    ensures mb % 4 != 0 && mb > 1
  {
    DivMod(m0, 1024);
    LastRemainders(m0 / 1024, mb);
  }

  /** Without padding around the image every lane lies inside it, so the condition is exact. */
  lemma UnpaddedConvolvesIff(op: Op)
    requires op.Valid() && op.pad == 0
    ensures Straight(op) <==> Aligned(op)
  {
    if Aligned(op) {
      AlignedIsStraight(op);
    } else {
      SomePixels(op);
      var m0 := BlockStart(op.M() - 1);
      var mb := BlockRows(op, m0);
      LastBlock(op.M(), m0, mb);
      LastMisaligned(op.M(), m0, mb);
      TiledMatmul.PlaneStride(mb);
      InsideUnpadded(op, m0 + Excess(mb), 16);
      MisalignedIsForeign(op, m0, mb, Excess(mb));
    }
  }

  lemma SomePixels(op: Op)
    requires op.Valid()
    ensures op.M() > 0
  {
    MulLe(1, op.OutH(), 1, op.OutW());
  }

  lemma LastBlock(m: nat, m0: nat, mb: nat)
    requires m > 0 && m0 == BlockStart(m - 1) && mb == if m - m0 > M_BLOCK then M_BLOCK else m - m0
    ensures m0 % M_BLOCK == 0 && m0 < m == m0 + mb && mb <= M_BLOCK
  {
  }

  lemma InsideUnpadded(op: Op, mm: nat, k: nat)
    requires op.Valid() && op.pad == 0 && mm < op.M() && k < op.K()
    ensures Element(op, mm, k) >= 0
  {
    LaneDigits(op, k);
    var i := Decode(op.kh, op.kw, 1, k);
    QuotBelow(mm, op.OutW(), op.OutH());
    DivMod(mm, op.OutW());
    WindowInside(mm / op.OutW(), op.h, op.kh, op.stride, i.b);
    WindowInside(mm % op.OutW(), op.w, op.kw, op.stride, i.c);
    PixelInside(op, i.a, mm / op.OutW() * op.stride + i.b, mm % op.OutW() * op.stride + i.c);
  }

  lemma WindowInside(o: nat, size: nat, k: nat, s: nat, i: nat)
    requires s > 0 && k <= size && o <= (size - k) / s && i < k
    ensures 0 <= o * s + i < size
  {
    DivMod(size - k, s);
    MulLe(o, (size - k) / s, s, s);
    MulLe(0, o, s, s);
  }

  // ---------------------------------------------------------------- with padding

  /** In the last block, of mb rows from m0 on, every lane from the second plane on stands in
      the padding, and so does every lane of the first plane that serves one of them. */
  ghost predicate Blank(op: Op, m0: nat, mb: nat)
    requires op.Valid()
  {
    && (forall mm: nat, k: nat :: m0 <= mm < m0 + mb && 16 <= k < op.K() ==> Element(op, mm, k) == -1)
    && forall mm: nat, k: nat :: m0 + TiledMatmul.PlaneRows(mb) <= mm < m0 + mb && k < 16 && k + 16 < op.K() ==> Element(op, mm, k) == -1
  }

  ghost predicate LastOf(op: Op, m0: nat, mb: nat)
    requires op.Valid()
  {
    BlockOf(op, m0, mb) && m0 + mb == op.M()
  }

  /** The plane that serves lane k of row r, and the row. */
  lemma ServerIs(op: Op, m0: nat, mb: nat, r: nat, k: nat, q: nat, row: nat)
    requires op.Valid() && BlockOf(op, m0, mb) && r < mb && row < mb
    requires k / 16 * TiledMatmul.PlaneRows(mb) + r == q * mb + row
    ensures m0 + r < op.M() && Served(op, m0 + r, k) == Element(op, m0 + row, q * 16 + k % 16)
  {
    hide Served, Element, Op.Valid, TiledMatmul.PlaneRows;
    ServedIs(op, m0, mb, r, k);
    QuotRem(mb, q, row);
  }

  /** A lane served by itself at another pixel stands in the padding. */
  lemma SelfServed(op: Op, mm: nat, mm': nat, k: nat)
    requires op.Valid() && k < op.K() && mm != mm' && Element(op, mm, k) == Element(op, mm', k)
    ensures Element(op, mm, k) == -1
  {
    hide Element, Op.Valid, Op.K;
    ElementInside(op, mm, k);
    if Element(op, mm, k) >= 0 { ElementDistinct(op, mm, mm', k); }
  }

  /** Plane strides of a misaligned block other than one of three rows. */
  lemma ShortPlanes(mb: nat)
    requires mb % 4 != 0 && mb > 1 && mb != 3
    ensures
      var units := TiledMatmul.PlaneRows(mb);
      0 < units < mb <= 2 * units
  {
    TiledMatmul.PlaneStride(mb);
  }

  lemma {:induction false} StraightPlane(op: Op, m0: nat, mb: nat, r: nat, k: nat)
    requires op.Valid() && Straight(op) && LastOf(op, m0, mb) && mb % 4 != 0 && mb > 1 && mb != 3
    requires r < mb && 16 <= k < op.K()
    ensures Element(op, m0 + r, k) == -1
    decreases k
  {
    hide Served, Element, Op.Valid, Op.K, Op.M, BlockOf;
    ShortPlanes(mb);
    var units := TiledMatmul.PlaneRows(mb);
    hide TiledMatmul.PlaneRows;
    var p, e := k / 16, mb - units;
    MulLe(1, p, units, units);
    var u := p * units + r;
    DivMod(u, mb);
    DivMod(k, 16);
    ServerIs(op, m0, mb, r, k, u / mb, u % mb);
    UnitsBelow(p, units, mb, r);
    if u / mb == p {
      SelfServed(op, m0 + r, m0 + u % mb, k);
    } else if u / mb > 0 {
      Step(u / mb, p, 16);
      StraightPlane(op, m0, mb, u % mb, u / mb * 16 + k % 16);
    } else {
      assert p == 1;
      ServerIs(op, m0, mb, r + e, k, 1, r);
      SelfServed(op, m0 + r + e, m0 + r, k);
    }
  }

  /** How far plane p's units fall behind. */
  lemma UnitsBelow(p: nat, units: nat, mb: nat, r: nat)
    requires p > 0 && 0 < units < mb <= 2 * units && r < mb
    ensures
      var u := p * units + r;
      && 0 <= u / mb <= p
      && (u / mb == p ==> u % mb == r - p * (mb - units) < r)
      && (u / mb == 0 ==> p == 1 && r + (mb - units) < mb)
  {
    UnitsWithin(p, units, mb, r);
    var (u, lag) := (p * units + r, p * (mb - units));
    hide *;
    DivMod(u, mb);
    QuotientAt(u, mb, p, r - lag);
    Step(p + 1, u / mb, mb);
    if u >= mb { Step(u / mb, 1, mb); }
  }

  lemma UnitsWithin(p: nat, units: nat, mb: nat, r: nat)
    requires p > 0 && 0 < units < mb <= 2 * units && r < mb
    ensures p * units + r == p * mb + (r - p * (mb - units)) && 0 <= p * units + r < (p + 1) * mb && p * (mb - units) >= p
    ensures p > 1 ==> p * units + r >= mb
    ensures p == 1 ==> p * units + r == units + r
  {
    MulLe(p, p, 1, mb - units);
    MulLe(p, p, units, mb);
    assert (p + 1) * mb == p * mb + mb && p * (mb - units) == p * mb - p * units;
    if p > 1 { MulLe(2, p, units, units); }
  }

  lemma QuotientAt(u: int, mb: nat, p: nat, r: int)
    requires mb > 0 && u == p * mb + r && r < mb
    ensures u / mb == p ==> u % mb == r
  {
    DivMod(u, mb);
  }

  lemma StraightIsBlank(op: Op, m0: nat, mb: nat)
    requires op.Valid() && Straight(op) && LastOf(op, m0, mb) && mb % 4 != 0 && mb > 1 && mb != 3
    ensures Blank(op, m0, mb)
  {
    hide Served, Element, Op.Valid, Op.K, Op.M, BlockOf;
    ShortPlanes(mb);
    var units := TiledMatmul.PlaneRows(mb);
    forall mm: nat, k: nat | m0 <= mm < m0 + mb && 16 <= k < op.K() ensures Element(op, mm, k) == -1 {
      StraightPlane(op, m0, mb, mm - m0, k);
    }
    hide TiledMatmul.PlaneRows;
    forall mm: nat, k: nat | m0 + units <= mm < m0 + mb && k < 16 && k + 16 < op.K() ensures Element(op, mm, k) == -1 {
      var r := mm - m0;
      StraightPlane(op, m0, mb, r - units, k + 16);
      assert (k + 16) / 16 == 1 && (k + 16) % 16 == k;
      ServerIs(op, m0, mb, r - units, k + 16, 0, r);
    }
  }

  lemma BlankServed(op: Op, m0: nat, mb: nat, r: nat, k: nat)
    requires op.Valid() && LastOf(op, m0, mb) && Blank(op, m0, mb) && r < mb && k < op.K()
    ensures m0 + r < op.M() && Served(op, m0 + r, k) == Element(op, m0 + r, k)
  {
    hide Served, Element, Op.Valid, Op.K, Op.M, BlockOf;
    TiledMatmul.PlaneStride(mb);
    var (units, p) := (TiledMatmul.PlaneRows(mb), k / 16);
    hide TiledMatmul.PlaneRows;
    DivMod(k, 16);
    if p == 0 {
      ServerIs(op, m0, mb, r, k, 0, r);
    } else {
      var u := p * units + r;
      UnitServer(p, units, mb, r);
      DivMod(u, mb);
      ServerIs(op, m0, mb, r, k, u / mb, u % mb);
      BlankElement(op, m0, mb, r, k);
      BlankElement(op, m0, mb, u % mb, u / mb * 16 + k % 16);
    }
  }

  /** Unit u of a later plane lies at most p planes on, and in the first plane only behind
      its first rows. */
  lemma UnitServer(p: nat, units: nat, mb: nat, r: nat)
    requires p > 0 && units <= mb && r < mb
    ensures
      var u := p * units + r;
      0 <= u / mb <= p && (u / mb == 0 ==> units <= u % mb)
  {
    MulLe(1, p, units, units);
    MulLe(p, p, units, mb);
    assert (p + 1) * mb == p * mb + mb;
    QuotientWithin(p * units + r, mb, p, units);
  }

  lemma QuotientWithin(u: nat, mb: nat, p: nat, units: nat)
    requires mb > 0 && units <= u < (p + 1) * mb
    ensures 0 <= u / mb <= p && (u / mb == 0 ==> units <= u % mb)
  {
    DivMod(u, mb);
    Step(p + 1, u / mb, mb);
  }

  lemma BlankElement(op: Op, m0: nat, mb: nat, r: nat, k: nat)
    requires op.Valid() && Blank(op, m0, mb) && r < mb
    requires 16 <= k < op.K() || (TiledMatmul.PlaneRows(mb) <= r && k < 16 && k + 16 < op.K())
    ensures Element(op, m0 + r, k) == -1
  {
    hide Element, Op.K, TiledMatmul.PlaneRows;
    var mm := m0 + r;
  }

  lemma BlankIsStraight(op: Op, m0: nat, mb: nat)
    requires op.Valid() && LastOf(op, m0, mb) && Blank(op, m0, mb)
    ensures Straight(op)
  {
    hide Served, Element, Op.Valid, Op.K, Op.M, Blank;
    forall mm: nat, k: nat | mm < op.M() && k < op.K() ensures Served(op, mm, k) == Element(op, mm, k) {
      if mm >= m0 { BlankServed(op, m0, mb, mm - m0, k); } else { FullBlockServed(op, m0, mm, k); }
    }
  }

  /** A block before the last has 1024 rows, all served in place. */
  lemma FullBlockServed(op: Op, m0: nat, mm: nat, k: nat)
    requires op.Valid() && m0 % M_BLOCK == 0 && mm < m0 <= op.M() && k < op.K()
    ensures mm < op.M() && Served(op, mm, k) == Element(op, mm, k)
  {
    hide Served, Element, Op.Valid, Op.K, Op.M;
    FullBlock(op, m0, mm);
    TiledMatmul.PlaneStride(1024);
    DivMod(k, 16);
    ServerIs(op, BlockStart(mm), 1024, mm - BlockStart(mm), k, k / 16, mm - BlockStart(mm));
  }

  lemma FullBlock(op: Op, m0: nat, mm: nat)
    requires op.Valid() && m0 % M_BLOCK == 0 && mm < m0 <= op.M()
    ensures BlockOf(op, BlockStart(mm), 1024) && BlockStart(mm) <= mm < BlockStart(mm) + 1024
  {
    hide Op.Valid, Op.M;
    assert m0 == m0 / 1024 * 1024;
    DivMod(mm, 1024);
    QuotRem(1024, mm / 1024, 0);
    Step(mm / 1024, m0 / 1024, 1024);
    Step(m0 / 1024, mm / 1024, 1024);
  }

  /** With any padding: when the last block has not just three rows, the device convolves
      exactly if the shape is aligned or that block is blank. */
  lemma PaddedConvolvesIff(op: Op, m0: nat, mb: nat)
    requires op.Valid() && LastOf(op, m0, mb) && mb != 3
    ensures Straight(op) <==> Aligned(op) || Blank(op, m0, mb)
  {
    hide Straight, Blank, Op.Valid, Op.K, Op.M;
    if Aligned(op) {
      AlignedIsStraight(op);
    } else if Blank(op, m0, mb) {
      BlankIsStraight(op, m0, mb);
    } else if Straight(op) {
      BlockSize(op, m0, mb);
      LastMisaligned(op.M(), m0, mb);
      StraightIsBlank(op, m0, mb);
    }
  }

  lemma BlockSize(op: Op, m0: nat, mb: nat)
    requires op.Valid() && BlockOf(op, m0, mb)
    ensures m0 % M_BLOCK == 0 && m0 < op.M() && mb <= M_BLOCK
  {
  }

  /** One line of five pixels, padded to keep its size: one block, and not aligned. */
  lemma FivePixels(op: Op)
    requires op.h == op.stride == op.outC == 1 && op.w == 5 && op.c > 0 && op.kh == op.kw == 2 * op.pad + 1 && 16 < op.K() <= MAX_K
    ensures op.Valid() && op.OutW() == 5 && op.M() == 5 && !Aligned(op) && LastOf(op, 0, 5)
  {
    hide Op.K;
    assert op.OutH() == 1 && op.OutW() == 5;
    hide Op.OutH, Op.OutW, Op.Valid;
    assert op.M() == 5;
  }

  /** A 3 x 3 convolution of two channels over one line of five pixels, padded by one. */
  const ONE_LINE := Op(2, 1, 5, 1, 3, 3, 1, 1)

  /** Lanes 0, 1, 16 and 17 belong to kernel rows above and below the line: its single block
      is blank, and it convolves without being aligned. */
  lemma OneLineIsBlank()
    ensures ONE_LINE.Valid() && LastOf(ONE_LINE, 0, 5) && !Aligned(ONE_LINE) && Blank(ONE_LINE, 0, 5) && Straight(ONE_LINE)
  {
    hide *;
    OneLineShape();
    LinePadding();
    BlankIsStraight(ONE_LINE, 0, 5);
  }

  lemma OneLineShape()
    ensures ONE_LINE.Valid() && LastOf(ONE_LINE, 0, 5) && !Aligned(ONE_LINE) && ONE_LINE.K() == 18 && ONE_LINE.OutW() == 5
  {
    hide Op.OutH, Op.OutW, Op.M, Op.Valid, Aligned, LastOf;
    FivePixels(ONE_LINE);
  }

  lemma LinePadding()
    ensures ONE_LINE.Valid() && Blank(ONE_LINE, 0, 5)
  {
    hide Op.Valid, Op.K, Op.M, Op.OutW, Op.OutH, Element, Aligned, LastOf;
    OneLineShape();
    TiledMatmul.PlaneStride(5);
    forall r: nat, k: nat | r < 5 && (k < 2 || 16 <= k < 18) ensures Element(ONE_LINE, r, k) == -1 { LineEdge(ONE_LINE, r, k); }
  }

  lemma LineEdge(op: Op, mm: nat, k: nat)
    requires op.Valid() && op.c == 2 && op.h == 1 && op.kh == op.kw == 3 && op.pad == op.stride == 1 && mm < op.OutW()
    requires k < 2 || 16 <= k < 18
    ensures Element(op, mm, k) == -1
  {
    hide Op.Valid, Op.OutW, Op.K;
    assert mm / op.OutW() == 0;
    var i := Decode(3, 3, 1, k);
    assert i.b == if k < 2 then 0 else 2;
  }

  /** A 1 x 1 convolution of 32 channels over five pixels. */
  const FIVE_WIDE := Op(32, 1, 5, 1, 1, 1, 1, 0)

  lemma FiveWideShape()
    ensures FIVE_WIDE.Valid() && FIVE_WIDE.M() == 5 && FIVE_WIDE.K() == 32 && !Aligned(FIVE_WIDE)
    ensures FIVE_WIDE.OutW() == 5
  {
    hide Op.OutH, Op.OutW, Op.M, Op.Valid, Aligned, LastOf;
    FivePixels(FIVE_WIDE);
  }

  /** In a 1 x 1 convolution over one line, lane k of pixel mm is that pixel of channel k. */
  lemma LineElement(op: Op, mm: nat, k: nat)
    requires op.Valid() && op.h == op.kh == op.kw == op.stride == 1 && op.pad == 0
    requires k < op.K() && mm < op.w == op.OutW()
    ensures Element(op, mm, k) == k * op.w + mm
  {
    hide Op.Valid, Op.K, Op.OutW;
    assert Decode(1, 1, 1, k) == Index(k, 0, 0, 0);
    assert mm / op.w == 0 && mm % op.w == mm;
  }

  lemma FiveWideServing()
    ensures ServingRow(5, 0, 16) == 4 && ServingLane(5, 0, 16) == 0
  {
    assert Unit(5, 0, 16) == 4;
  }

  lemma FiveWideServed()
    ensures FIVE_WIDE.Valid() && FIVE_WIDE.M() == 5
    ensures Served(FIVE_WIDE, 0, 16) == 4 && Element(FIVE_WIDE, 0, 16) == 80
  {
    hide Op.Valid, Op.M, Op.K, Op.OutW, Element, ServingRow, ServingLane;
    FiveWideShape();
    FiveWideServing();
    LineElement(FIVE_WIDE, 0, 16);
    LineElement(FIVE_WIDE, 4, 0);
  }

  /** It is accepted, and the device uses channel 0 of pixel 4 in place of channel 16 of
      pixel 0. */
  lemma FiveWideFails() returns (data: seq<int>, w: seq<int>)
    ensures FIVE_WIDE.Valid() && FIVE_WIDE.M() == 5 && MatmulCode(5, 32, 32) == 0 && !Aligned(FIVE_WIDE)
    ensures Tensors(FIVE_WIDE, data, w) && data[4] == 1 && w[16] == 1
    ensures DeviceAt(FIVE_WIDE, data, w)(0, 0) == 1 && DirectAt(FIVE_WIDE, data, w)(0, 0) == 0
  {
    hide Op.Valid, Op.M, Op.K, Weighted, DeviceAt, DirectAt, Served, Element, Aligned, MatmulCode;
    FiveWideShape();
    FiveWideServed();
    FiveWideCode();
    data, w := OneHot(160, 4), OneHot(32, 16);
    DirectIsWeighted(FIVE_WIDE, data, w, 0, 0);
    DeviceIs(FIVE_WIDE, data, w, 0, 0);
    OneLane(FIVE_WIDE, data, w, Servings(FIVE_WIDE, 0), 16);
    OneLane(FIVE_WIDE, data, w, Elements(FIVE_WIDE, 0), 16);
  }

  lemma FiveWideCode()
    ensures MatmulCode(5, 32, 32) == 0
  {
  }

  lemma EmittedDirect(op: Op, out: seq<int>, data: seq<int>, w: seq<int>)
    requires op.Valid() && Aligned(op) && Emitted(op, out, DeviceAt(op, data, w), op.M())
    ensures Emitted(op, out, DirectAt(op, data, w), op.M())
  {
    AlignedIsStraight(op);
    hide Straight, DeviceAt, DirectAt, OutIndex;
    forall n, mm | 0 <= n < op.outC && 0 <= mm < op.M() ensures At(out, OutIndex(op, n, mm)) == DirectAt(op, data, w)(n, mm) {
      StraightIsDirect(op, data, w, n, mm);
    }
  }

  // ---------------------------------------------------------------- which layers are accepted

  /** The least multiple of 4 of which 32 reach mb. */
  function LeastTile(mb: nat): nat { 4 * CeilDiv(mb, 128) }

  /** Banks of the padded weights. */
  function WeightBanks(op: Op): nat {
    MulLe(0, op.Kp(), 0, op.Np());
    TiledMatmul.Banks(op.Kp() * op.Np())
  }

  /** Banks of the rows that a tile must hold, if 32 tiles are to do for mb rows. */
  function TileBanks(op: Op, mb: nat): nat { TiledMatmul.Banks(TiledMatmul.Bytes(LeastTile(mb), op.Kp())) }

  /** What run_matmul returns when both together may take all 12 banks. */
  function CostCode(op: Op, mb: nat): int {
    if WeightBanks(op) >= TiledMatmul.BANKS then -2 else if WeightBanks(op) + TileBanks(op, mb) > TiledMatmul.BANKS then -10 else 0
  }

  lemma PaddedSizes(op: Op)
    requires op.Valid()
    ensures 0 < op.Kp() <= MAX_K && 0 < op.Np() <= MAX_N && op.Kp() % 32 == 0 && op.Np() % 32 == 0
  {
    SizesFit(op);
    hide Op.K;
    TiledMatmul.CeilCounts(op.K(), 32);
    TiledMatmul.CeilCounts(op.outC, 32);
  }

  lemma ExactBytes(k: nat, n: nat)
    requires 0 < k <= MAX_K && 0 < n <= MAX_N && k % 32 == 0 && n % 32 == 0
    ensures 0 < k * n && TiledMatmul.WeightBytes(k, n) == k * n
  {
    TiledMatmul.WeightBytesWrapIff(k, n);
    var (a, b) := (k / 32, n / 32);
    MulLe(1, k, 1, n);
    assert k * n == a * b * 32 * 32;
  }

  lemma FourRows(k: nat)
    requires 0 < k <= MAX_K
    ensures TiledMatmul.Banks(TiledMatmul.Bytes(4, k)) == 1
  {
  }

  lemma LeastIff(mb: nat, r: nat)
    requires r > 0 && r % 4 == 0 && mb > 0
    ensures LeastTile(mb) <= r <==> mb <= 32 * r
    ensures CeilDiv(mb, r) <= 32 <==> mb <= 32 * r
    ensures LeastTile(mb) % 4 == 0 && LeastTile(mb) > 0
  {
    TiledMatmul.CeilCounts(mb, 128);
    TiledMatmul.CeilCounts(mb, r);
    if CeilDiv(mb, r) <= 32 { MulLe(CeilDiv(mb, r), 32, r, r); }
    hide CeilDiv;
    if CeilDiv(mb, r) > 32 { assert 32 * r < mb; }
    if LeastTile(mb) > r { assert CeilDiv(mb, 128) > r / 4; assert r / 4 * 128 < mb; }
  }

  lemma MatmulCodeIs(op: Op, mb: nat)
    requires op.Valid() && 0 < mb <= M_BLOCK
    ensures op.Kp() > 0 && MatmulCode(mb, op.Kp(), op.Np()) == CostCode(op, mb)
  {
    PaddedSizes(op);
    ExactBytes(op.Kp(), op.Np());
    SizedCode(mb, op.Kp(), op.Np());
  }

  lemma SizedCode(mb: nat, k: nat, n: nat)
    requires 0 < mb <= M_BLOCK && 0 < k <= MAX_K && 0 < n <= MAX_N && 0 < k * n && TiledMatmul.WeightBytes(k, n) == k * n
    ensures
      var (w, t) := (TiledMatmul.Banks(k * n), TiledMatmul.Banks(TiledMatmul.Bytes(LeastTile(mb), k)));
      MatmulCode(mb, k, n) == if w >= TiledMatmul.BANKS then -2 else if w + t > TiledMatmul.BANKS then -10 else 0
  {
    hide TiledMatmul.WeightBytes, TiledMatmul.Banks, TiledMatmul.MaxRows, TiledMatmul.Bytes, LeastTile, CeilDiv;
    if TiledMatmul.Banks(k * n) < TiledMatmul.BANKS {
      var most := TiledMatmul.MaxRows(k, n);
      FourRows(k);
      TiledMatmul.MaxRowsIff(k, n, 4);
      LeastIff(mb, most);
      LeastSmall(mb);
      TiledMatmul.MaxRowsIff(k, n, LeastTile(mb));
      if mb <= most {
        SomeWeights(k * n);
        RowsIsBytes(mb, k);
        TiledMatmul.RowsFit(k, n, mb, TiledMatmul.Bytes(mb, k));
      }
    }
  }

  lemma RowsIsBytes(r: nat, k: nat)
    ensures TiledMatmul.Bytes(r, k) == r * k
  {
  }

  lemma SomeWeights(bytes: nat)
    requires bytes > 0
    ensures TiledMatmul.Banks(bytes) > 0
  {
  }

  lemma LeastSmall(mb: nat)
    requires mb <= M_BLOCK
    ensures LeastTile(mb) <= 32
  {
  }

  /** Smaller blocks cost no more. */
  lemma CostGrows(op: Op, mb: nat, mb': nat)
    requires mb <= mb'
    ensures TileBanks(op, mb) <= TileBanks(op, mb')
  {
    var (r, r') := (LeastTile(mb), LeastTile(mb'));
    TiledMatmul.CeilCounts(mb, 128);
    TiledMatmul.CeilCounts(mb', 128);
    MulLe(r, r', op.Kp(), op.Kp());
    BanksGrow(TiledMatmul.Bytes(r, op.Kp()), TiledMatmul.Bytes(r', op.Kp()));
  }

  lemma BanksGrow(a: nat, b: nat)
    requires a <= b
    ensures TiledMatmul.Banks(a) <= TiledMatmul.Banks(b)
  {
  }

  lemma {:induction false} LaterBlocks(op: Op, m0: nat, mb: nat)
    requires op.Valid() && m0 <= op.M() && mb <= M_BLOCK && CostCode(op, mb) == 0
    requires m0 < op.M() ==> BlockRows(op, m0) <= mb
    ensures BlocksCode(op, m0) == 0
    decreases op.M() - m0
  {
    hide TileBanks, WeightBanks, MatmulCode, Op.M, Op.Kp, Op.Np, Op.Valid;
    if m0 < op.M() {
      var b := BlockRows(op, m0);
      MatmulCodeIs(op, b);
      CostGrows(op, b, mb);
      LaterBlocks(op, m0 + b, mb);
    }
  }

  /** Rows of the first block. */
  function FirstRows(op: Op): nat
    requires op.Valid()
  {
    if op.M() > M_BLOCK then M_BLOCK else op.M()
  }

  /** The code a layer returns: -2 when its weights take all 12 banks, -10 when they leave no
      room for tiles of which 32 do for its first block, else 0. */
  lemma LayerCodeIs(op: Op)
    requires op.Valid()
    ensures BlocksCode(op, 0) == CostCode(op, FirstRows(op))
  {
    SomeRows(op);
    var b := FirstRows(op);
    MatmulCodeIs(op, b);
    hide MatmulCode, CostCode, Op.M, Op.Kp, Op.Np, Op.Valid;
    if CostCode(op, b) == 0 { LaterBlocks(op, 0, b); }
  }

  lemma SomeRows(op: Op)
    requires op.Valid()
    ensures op.M() > 0
  {
    MulLe(1, op.OutH(), 1, op.OutW());
  }

  // ---------------------------------------------------------------- one block

  /** The block of rows from m0 on, of the size the block loop gives it. */
  predicate BlockOf(op: Op, m0: nat, mb: nat)
    requires op.Valid()
  {
    m0 % M_BLOCK == 0 && m0 < op.M() && mb == BlockRows(op, m0)
  }

  /** One trip of the block loop. */
  lemma BlockNext(op: Op, m0: nat)
    requires op.Valid() && m0 < op.M() && (m0 % M_BLOCK == 0 || m0 == op.M())
    ensures
      var mb := BlockRows(op, m0);
      && BlockOf(op, m0, mb) && 0 < mb && m0 + mb <= op.M() && ((m0 + mb) % M_BLOCK == 0 || m0 + mb == op.M())
      && op.Kp() > 0 && BlocksCode(op, m0) == if MatmulCode(mb, op.Kp(), op.Np()) != 0 then MatmulCode(mb, op.Kp(), op.Np()) else BlocksCode(op, m0 + mb)
  {
    hide MatmulCode, Op.Valid, Op.K, Op.Kp, Op.Np, Op.M;
    SizesFit(op);
    NextStart(op.M(), m0, BlockRows(op, m0));
  }

  lemma NextStart(m: nat, m0: nat, mb: nat)
    requires m0 % M_BLOCK == 0 && mb <= M_BLOCK && (mb == M_BLOCK || m0 + mb == m)
    ensures (m0 + mb) % M_BLOCK == 0 || m0 + mb == m
  {
  }

  lemma NoMoreBlocks(op: Op)
    requires op.Valid()
    ensures BlocksCode(op, op.M()) == 0
  {
  }

  lemma BlockOfRow(op: Op, m0: nat, mb: nat, r: nat)
    requires op.Valid() && BlockOf(op, m0, mb) && r < mb
    ensures mb <= M_BLOCK && m0 + r < op.M() && BlockStart(m0 + r) == m0
  {
  }

  /** What the engine computes for a row of the block is the weighted sum of the elements
      it fetches. */
  lemma BlockIsDevice(op: Op, data: seq<int>, w: seq<int>, feat: seq<int>, wt: seq<int>, m0: nat, mb: nat, r: nat, n: int)
    requires op.Valid() && Filled(op, data, feat, m0, mb, mb, 0) && Prelaid(op, wt, w)
    requires BlockOf(op, m0, mb) && r < mb && 0 <= n < op.outC
    ensures TiledMatmul.EngineDot(feat, wt, mb, op.Kp(), r, n) == DeviceAt(op, data, w)(n, m0 + r)
  {
    hide Filled, Prelaid, BlockOf, DeviceAt, Op.K, Op.Kp, Op.M, Op.Valid, TiledMatmul.EngineTerm, WeightedTerm, Servings, Sum;
    BlockOfRow(op, m0, mb, r);
    PaddedK(op);
    DeviceIs(op, data, w, n, m0 + r);
    var f := TiledMatmul.EngineTerm(feat, wt, mb, op.Kp(), r, n);
    var g := WeightedTerm(op, data, w, n, Servings(op, m0 + r));
    forall k | 0 <= k < op.Kp() ensures f(k) == if k < op.K() then g(k) else 0 { LaneServed(op, data, w, feat, wt, m0, mb, r, n, k); }
    PaddedSum(op.K(), op.Kp(), f, g);
  }

  lemma PaddedSum(k: nat, kp: nat, f: int -> int, g: int -> int)
    requires k <= kp && forall i :: 0 <= i < kp ==> f(i) == if i < k then g(i) else 0
    ensures Sum(kp, f) == Sum(k, g)
  {
    SumPrefix(k, kp, f);
    SumCong(k, f, g);
  }

  lemma LaneServed(op: Op, data: seq<int>, w: seq<int>, feat: seq<int>, wt: seq<int>, m0: nat, mb: nat, r: nat, n: int, k: nat)
    requires op.Valid() && Filled(op, data, feat, m0, mb, mb, 0) && Prelaid(op, wt, w)
    requires BlockOf(op, m0, mb) && r < mb && 0 <= n < op.outC && k < op.Kp() && m0 + r < op.M()
    ensures TiledMatmul.EngineTerm(feat, wt, mb, op.Kp(), r, n)(k)
         == if k < op.K() then WeightedTerm(op, data, w, n, Servings(op, m0 + r))(k) else 0
  {
    hide Served, Element, RowLane, FeatPlace, TiledMatmul.Fetched, ServingRow, ServingLane, WeightInt8, Filled, Prelaid, BlockOf, Op.K, Op.Kp, Op.M, Op.Valid;
    ServedIs(op, m0, mb, r, k);
    ServingPlace(mb, r, k);
    var (r', k') := (ServingRow(mb, r, k), ServingLane(mb, r, k));
    LaneIsElement(op, data, m0 + r', k');
    LaneHeld(op, data, feat, m0, mb, r', k');
    WeightHeld(op, wt, w, n, k);
    assert Servings(op, m0 + r)(k) == Served(op, m0 + r, k);
  }

  lemma ServedIs(op: Op, m0: nat, mb: nat, r: nat, k: nat)
    requires op.Valid() && BlockOf(op, m0, mb) && r < mb
    ensures m0 + r < op.M()
    ensures Served(op, m0 + r, k) == Element(op, m0 + ServingRow(mb, r, k), ServingLane(mb, r, k))
  {
    BlockOfRow(op, m0, mb, r);
  }

  lemma LaneHeld(op: Op, data: seq<int>, feat: seq<int>, m0: nat, mb: nat, r: nat, k: nat)
    requires op.Valid() && Filled(op, data, feat, m0, mb, mb, 0) && r < mb && k < op.Kp()
    ensures At(feat, FeatPlace(mb, r, k)) == RowLane(op, data, m0 + r, k)
  {
  }

  lemma WeightHeld(op: Op, wt: seq<int>, w: seq<int>, n: int, k: nat)
    requires Prelaid(op, wt, w) && 0 <= n < op.outC && k < op.Kp()
    ensures At(wt, WeightInt8(op.Kp(), n + 1, k + 1)) == if k < op.K() then At(w, n * op.K() + k) else 0
  {
    assert WeightPlace(op, n, k) == WeightInt8(op.Kp(), n + 1, k + 1);
  }

  /** The engine's output holds acc for the block's rows. */
  ghost predicate Computed(op: Op, out: seq<int>, acc: (int, int) -> int, m0: nat, mb: nat) {
    forall r, n :: 0 <= r < mb && 0 <= n < op.outC ==> At(out, OutPlace(mb, r, n)) == acc(n, m0 + r)
  }

  lemma BlockComputed(op: Op, data: seq<int>, w: seq<int>, feat: seq<int>, wt: seq<int>, out: seq<int>, m0: nat, mb: nat)
    requires op.Valid() && Filled(op, data, feat, m0, mb, mb, 0) && Prelaid(op, wt, w) && BlockOf(op, m0, mb)
    requires Multiplied(feat, wt, out, mb, op.Kp(), op.Np())
    ensures Computed(op, out, DeviceAt(op, data, w), m0, mb)
  {
    PaddedN(op);
    hide Filled, Prelaid, OutPlace, TiledMatmul.EngineDot, DeviceAt, Op.Kp, Op.Np, BlockOf;
    forall r, n | 0 <= r < mb && 0 <= n < op.outC
      ensures At(out, OutPlace(mb, r, n)) == DeviceAt(op, data, w)(n, m0 + r)
    {
      BlockIsDevice(op, data, w, feat, wt, m0, mb, r, n);
    }
  }

  /** kbase holds, for each of n lanes, its place in row 0 of a block of mb rows. */
  ghost predicate Bases(kbase: seq<int>, n: nat, mb: nat) {
    n <= |kbase| && forall k :: 0 <= k < n ==> kbase[k] == FeatPlace(mb, 0, k)
  }

  lemma FeatBytes(op: Op)
    ensures op.K() <= op.Kp() && CeilDiv(op.Kp(), 16) * 16 == op.Kp()
  {
    PaddedK(op);
  }

  class YoloModel {
    const dmaInput: array<int>    // im2col features
    const dmaOutput: array<int>   // 32-bit sums
    const kbase: array<int>
    const nbase: array<int>

    ghost predicate Valid() {
      && kbase.Length == MAX_K && nbase.Length == MAX_N
      && dmaInput != dmaOutput && dmaInput != kbase && dmaInput != nbase && dmaOutput != kbase && dmaOutput != nbase && kbase != nbase
    }

    constructor (featBytes: nat, outWords: nat)
      ensures Valid() && fresh(dmaInput) && fresh(dmaOutput) && fresh(kbase) && fresh(nbase)
      ensures dmaInput.Length == featBytes && dmaOutput.Length == outWords
    {
      dmaInput, dmaOutput := new int[featBytes], new int[outWords];
      kbase, nbase := new int[MAX_K], new int[MAX_N];
    }

    /** The part of the feature buffer cleared before a block is filled in. */
    method ZeroFeatures(bytes: nat)
      requires bytes <= dmaInput.Length
      modifies dmaInput
      ensures forall i :: 0 <= i < bytes ==> dmaInput[i] == 0
    {
      for i := 0 to bytes
        invariant forall j :: 0 <= j < i ==> dmaInput[j] == 0
      {
        dmaInput[i] := 0;
      }
    }

    method FillKbase(K: nat, mb: nat)
      requires Valid() && K <= MAX_K
      modifies kbase
      ensures Bases(kbase[..], K, mb)
    {
      for k := 0 to K
        invariant forall j :: 0 <= j < k ==> kbase[j] == FeatPlace(mb, 0, j)
      {
        kbase[k] := k / 16 * mb * 16 + k % 16;
      }
    }

    /** The body of the im2col loops: one kernel element of one output pixel. */
    method FillLane(op: Op, data: seq<int>, m0: nat, mb: nat, row: nat, c: nat, kr: nat, kc: nat, k: nat)
      requires Valid() && op.Valid() && |data| == op.c * op.h * op.w && row < mb
      requires c < op.c && kr < op.kh && kc < op.kw && k == Flat(op.kh, op.kw, c, kr, kc) < MAX_K
      requires kbase[k] == FeatPlace(mb, 0, k)
      requires Filled(op, data, dmaInput[..], m0, mb, row, k)
      modifies dmaInput
      ensures Filled(op, data, dmaInput[..], m0, mb, row, k + 1)
    {
      var v := PatchPixel(op, data, m0 + row, c, kr, kc);
      PatchAt(op, data, 0, 0, c, kr, kc);
      FillOne(op, data, dmaInput[..], m0, mb, row, k, v);
      ghost var was := dmaInput[..];
      dmaInput[kbase[k] + row * 16] := v;
      assert dmaInput[..] == was[FeatPlace(mb, row, k) := v];
    }

    /** The pixel under one kernel element, zero outside the image. */
    method PatchPixel(op: Op, data: seq<int>, mm: nat, c: nat, kr: nat, kc: nat) returns (v: int)
      requires op.Valid() && |data| == op.c * op.h * op.w && c < op.c && kr < op.kh && kc < op.kw
      ensures v == RowLane(op, data, mm, Flat(op.kh, op.kw, c, kr, kc))
    {
      var oy, ox := mm / op.OutW(), mm % op.OutW();
      PatchAt(op, data, oy, ox, c, kr, kc);
      v := PixelAt(op, data, c, oy * op.stride - op.pad + kr, ox * op.stride - op.pad + kc);
    }

    method PixelAt(op: Op, data: seq<int>, c: nat, iy: int, ix: int) returns (v: int)
      requires |data| == op.c * op.h * op.w && c < op.c
      ensures v == Pixels(op, data)(c, iy, ix)
    {
      v := 0;
      if 0 <= iy < op.h && 0 <= ix < op.w {
        PixelIndex(op, data, c, iy, ix);
        v := data[c * op.h * op.w + iy * op.w + ix];
      }
    }

    /** The loops over kr and kc. */
    method Im2colChannel(op: Op, data: seq<int>, m0: nat, mb: nat, row: nat, c: nat)
      requires Valid() && op.Valid() && |data| == op.c * op.h * op.w && row < mb && c < op.c
      requires Bases(kbase[..], op.K(), mb)
      requires Filled(op, data, dmaInput[..], m0, mb, row, Flat(op.kh, op.kw, c, 0, 0))
      modifies dmaInput
      ensures Filled(op, data, dmaInput[..], m0, mb, row, Flat(op.kh, op.kw, c + 1, 0, 0))
    {
      for kr := 0 to op.kh
        invariant Filled(op, data, dmaInput[..], m0, mb, row, Flat(op.kh, op.kw, c, kr, 0))
      {
        for kc := 0 to op.kw
          invariant Filled(op, data, dmaInput[..], m0, mb, row, Flat(op.kh, op.kw, c, kr, kc))
        {
          var k := Flat(op.kh, op.kw, c, kr, kc);
          PatchAt(op, data, 0, 0, c, kr, kc);
          FillLane(op, data, m0, mb, row, c, kr, kc, k);
        }
        FlatNext(op.kh, op.kw, c, kr);
      }
      FlatNext2(op.kh, op.kw, c);
    }

    /** One row of im2col: the loop over c. */
    method Im2colRow(op: Op, data: seq<int>, m0: nat, mb: nat, row: nat)
      requires Valid() && op.Valid() && |data| == op.c * op.h * op.w && row < mb
      requires Bases(kbase[..], op.K(), mb)
      requires Filled(op, data, dmaInput[..], m0, mb, row, 0)
      modifies dmaInput
      ensures Filled(op, data, dmaInput[..], m0, mb, row + 1, 0)
    {
      for c := 0 to op.c
        invariant Filled(op, data, dmaInput[..], m0, mb, row, Flat(op.kh, op.kw, c, 0, 0))
      {
        Im2colChannel(op, data, m0, mb, row, c);
      }
      assert Flat(op.kh, op.kw, op.c, 0, 0) == op.K();
      RowFilled(op, data, dmaInput[..], m0, mb, row);
    }

    /** The im2col of one block. */
    method Im2col(op: Op, data: seq<int>, m0: nat, mb: nat)
      requires Valid() && op.Valid() && |data| == op.c * op.h * op.w && op.Kp() * mb <= dmaInput.Length
      modifies dmaInput, kbase
      ensures Filled(op, data, dmaInput[..], m0, mb, mb, 0)
    {
      FeatBytes(op);
      var featBytes := CeilDiv(op.Kp(), 16) * 16 * mb;
      hide CeilDiv;
      ZeroFeatures(featBytes);
      ClearedIsFilled(op, data, dmaInput[..], m0, mb);
      hide Filled, Bases;
      FillKbase(op.K(), mb);
      for row := 0 to mb
        invariant Bases(kbase[..], op.K(), mb)
        invariant Filled(op, data, dmaInput[..], m0, mb, row, 0)
      {
        Im2colRow(op, data, m0, mb, row);
      }
    }

    /** run_matmul: the tiles are generated and submitted one by one. */
    method RunMatmul(m: nat, k: nat, n: nat, wbuf: array<int>) returns (ret: int)
      requires Valid() && 0 < m <= M_BLOCK && 0 < k < 65536 && 0 < n < 65536 && n % 4 == 0
      requires n * m <= dmaOutput.Length && wbuf != dmaOutput
      modifies dmaOutput
      ensures ret == MatmulCode(m, k, n)
      ensures ret == 0 ==> Multiplied(old(dmaInput[..]), old(wbuf[..]), dmaOutput[..], m, k, n)
    {
      var tiles;
      ret, tiles := TiledMatmul.GenTiled(m, k, n);
      if ret != 0 {
        return;
      }
      if |tiles| > MAX_TILES {
        return -10;
      }
      ghost var feat, wt, was := dmaInput[..], wbuf[..], dmaOutput[..];
      hide TiledMatmul.Tiling, TiledMatmul.RunTile, TiledMatmul.Split, Multiplied;
      for t := 0 to |tiles|
        invariant dmaInput[..] == feat && wbuf[..] == wt
        invariant dmaOutput[..] == TiledMatmul.RunTiles(tiles[..t], feat, wt, k, n, was)
      {
        assert tiles[..t + 1][..t] == tiles[..t];
        Submit(tiles[t], k, n, wbuf);
      }
      assert tiles[..|tiles|] == tiles;
      TilesMultiplied(tiles, feat, wt, was, m, k, n);
    }

    /** The engine as a specification: one tile, reading and writing where its descriptor
        says. */
    method Submit(t: TiledMatmul.Tile, k: nat, n: nat, wbuf: array<int>)
      requires Valid() && n > 0 && wbuf != dmaOutput
      modifies dmaOutput
      ensures dmaOutput[..] == TiledMatmul.RunTile(t, old(dmaInput[..]), old(wbuf[..]), k, n, old(dmaOutput[..]))
    {
      var after := TiledMatmul.RunTile(t, dmaInput[..], wbuf[..], k, n, dmaOutput[..]);
      hide TiledMatmul.RunTile;
      forall i | 0 <= i < dmaOutput.Length {
        dmaOutput[i] := after[i];
      }
    }

    method FillNbase(N: nat, mb: nat)
      requires Valid() && N <= MAX_N
      modifies nbase
      ensures forall n :: 0 <= n < N ==> nbase[n] == n / 4 * mb * 4 + n % 4
    {
      for n := 0 to N
        invariant forall j :: 0 <= j < n ==> nbase[j] == j / 4 * mb * 4 + j % 4
      {
        nbase[n] := n / 4 * mb * 4 + n % 4;
      }
    }

    /** One kernel's row of the readback. */
    method ReadbackRow(op: Op, m0: nat, mb: nat, n: nat, out32: array<int>, ghost acc: (int, int) -> int)
      requires Valid() && op.Valid() && m0 + mb <= op.M() && out32.Length == op.outC * op.M() && n < op.outC
      requires out32 != dmaOutput && out32 != nbase && op.Np() * mb <= dmaOutput.Length
      requires nbase[n] == n / 4 * mb * 4 + n % 4
      requires forall r :: 0 <= r < mb ==> At(dmaOutput[..], OutPlace(mb, r, n)) == acc(n, m0 + r)
      requires EmittedPart(op, out32[..], acc, m0, mb, n, 0)
      modifies out32
      ensures EmittedPart(op, out32[..], acc, m0, mb, n + 1, 0)
      ensures OtherColumns(op, old(out32[..]), out32[..], m0, mb)
    {
      PaddedN(op);
      for row := 0 to mb
        invariant EmittedPart(op, out32[..], acc, m0, mb, n, row)
        invariant OtherColumns(op, old(out32[..]), out32[..], m0, mb)
      {
        OutPlaceInRange(mb, op.Np(), row, n);
        assert At(dmaOutput[..], OutPlace(mb, row, n)) == acc(n, m0 + row);
        EmitOne(op, out32[..], acc, m0, mb, n, row);
        OtherKept(op, old(out32[..]), out32[..], acc(n, m0 + row), m0, mb, n, row);
        ghost var was := out32[..];
        out32[OutIndex(op, n, m0 + row)] := dmaOutput[nbase[n] + row * 4];
        assert out32[..] == was[OutIndex(op, n, m0 + row) := acc(n, m0 + row)];
      }
      EmitRow(op, out32[..], acc, m0, mb, n);
    }

    /** The readback of one block into columns m0 .. m0 + mb of the [oc][M] output, and into
        no other column. */
    method Readback(op: Op, m0: nat, mb: nat, out32: array<int>, ghost acc: (int, int) -> int)
      requires Valid() && op.Valid() && m0 + mb <= op.M() && out32.Length == op.outC * op.M()
      requires out32 != dmaOutput && out32 != nbase && op.Np() * mb <= dmaOutput.Length
      requires Computed(op, dmaOutput[..], acc, m0, mb)
      requires Emitted(op, out32[..], acc, m0)
      modifies out32, nbase
      ensures Emitted(op, out32[..], acc, m0 + mb)
      ensures OtherColumns(op, old(out32[..]), out32[..], m0, mb)
    {
      FillNbase(op.outC, mb);
      EmitStart(op, out32[..], acc, m0, mb);
      for n := 0 to op.outC
        invariant forall j :: 0 <= j < op.outC ==> nbase[j] == j / 4 * mb * 4 + j % 4
        invariant EmittedPart(op, out32[..], acc, m0, mb, n, 0)
        invariant OtherColumns(op, old(out32[..]), out32[..], m0, mb)
      {
        ReadbackRow(op, m0, mb, n, out32, acc);
      }
      EmitEnd(op, out32[..], acc, m0, mb);
    }

    /** yolo_conv_npu.  The buffers must hold one block; `wbuf` is the resident weight
        buffer that prelayout_conv_weight filled from `w`. */
    method YoloConvNpu(op: Op, data: seq<int>, ghost w: seq<int>, wbuf: array<int>, out32: array<int>)
      returns (ret: int, outH: nat, outW: nat)
      requires Valid() && op.Valid() && |data| == op.c * op.h * op.w && Prelaid(op, wbuf[..], w)
      requires op.Kp() * M_BLOCK <= dmaInput.Length && op.Np() * M_BLOCK <= dmaOutput.Length
      requires out32.Length == op.outC * op.M()
      requires {out32, wbuf} !! {dmaInput, dmaOutput, kbase, nbase} && out32 != wbuf
      modifies dmaInput, dmaOutput, kbase, nbase, out32
      ensures outH == op.OutH() && outW == op.OutW()
      ensures ret == BlocksCode(op, 0)
      ensures ret == 0 ==> Emitted(op, out32[..], DeviceAt(op, data, w), op.M())
      ensures ret == 0 && Aligned(op) ==> Emitted(op, out32[..], DirectAt(op, data, w), op.M())
    {
      outH, outW := op.OutH(), op.OutW();
      hide Emitted, DeviceAt, DirectAt, Prelaid, Aligned, Op.Valid, Op.M, Op.K, Op.Kp, Op.Np, MatmulCode, BlocksCode, BlockOf, BlockRows;
      NothingEmitted(op, out32[..], DeviceAt(op, data, w));
      var m0 := 0;
      while m0 < op.M()
        invariant m0 <= op.M() && (m0 % M_BLOCK == 0 || m0 == op.M()) && BlocksCode(op, 0) == BlocksCode(op, m0)
        invariant Emitted(op, out32[..], DeviceAt(op, data, w), m0)
        invariant wbuf[..] == old(wbuf[..])
        decreases op.M() - m0
      {
        BlockNext(op, m0);
        var mb := BlockRows(op, m0);
        ret := RunBlock(op, data, w, wbuf, out32, m0, mb);
        if ret != 0 {
          return;
        }
        m0 := m0 + mb;
      }
      ret := 0;
      NoMoreBlocks(op);
      if Aligned(op) {
        EmittedDirect(op, out32[..], data, w);
      }
    }

    /** One trip of the block loop. */
    method RunBlock(op: Op, data: seq<int>, ghost w: seq<int>, wbuf: array<int>, out32: array<int>, m0: nat, mb: nat)
      returns (ret: int)
      requires Valid() && op.Valid() && |data| == op.c * op.h * op.w && Prelaid(op, wbuf[..], w)
      requires BlockOf(op, m0, mb)
      requires op.Kp() * M_BLOCK <= dmaInput.Length && op.Np() * M_BLOCK <= dmaOutput.Length
      requires out32.Length == op.outC * op.M()
      requires {out32, wbuf} !! {dmaInput, dmaOutput, kbase, nbase} && out32 != wbuf
      requires Emitted(op, out32[..], DeviceAt(op, data, w), m0)
      modifies dmaInput, dmaOutput, kbase, nbase, out32
      ensures op.Kp() > 0 && ret == MatmulCode(mb, op.Kp(), op.Np())
      ensures ret == 0 ==> Emitted(op, out32[..], DeviceAt(op, data, w), m0 + mb)
    {
      SizesFit(op);
      hide Prelaid, Filled, Emitted, Multiplied, DeviceAt, MatmulCode, Computed, BlockOf, Op.K, Op.Kp, Op.Np, Op.M, Op.Valid;
      PaddedK(op);
      PaddedN(op);
      BlockFits(op.Kp(), mb);
      BlockFits(op.Np(), mb);
      Im2col(op, data, m0, mb);
      ret := RunMatmul(mb, op.Kp(), op.Np(), wbuf);
      if ret != 0 {
        return;
      }
      BlockComputed(op, data, w, dmaInput[..], wbuf[..], dmaOutput[..], m0, mb);
      Readback(op, m0, mb, out32, DeviceAt(op, data, w));
    }
  }

  lemma BlockFits(width: nat, mb: nat)
    requires mb <= M_BLOCK
    ensures width * mb <= width * M_BLOCK
  {
  }

  lemma TilesMultiplied(tiles: seq<TiledMatmul.Tile>, feat: seq<int>, wt: seq<int>, was: seq<int>, m: nat, k: nat, n: nat)
    requires TiledMatmul.Tiling(tiles, m, m, k) && 0 < m && 0 < n && n % 4 == 0 && n * m <= |was|
    ensures Multiplied(feat, wt, TiledMatmul.RunTiles(tiles, feat, wt, k, n, was), m, k, n)
  {
    OutputSize(m, n);
    hide TiledMatmul.Tiling, TiledMatmul.RunTiles, CeilDiv, TiledMatmul.EngineDot;
    forall r, ch | 0 <= r < m && 0 <= ch < n
      ensures At(TiledMatmul.RunTiles(tiles, feat, wt, k, n, was), OutPlace(m, r, ch)) == TiledMatmul.EngineDot(feat, wt, m, k, r, ch)
    {
      OutPlaceIsLayout(m, r, ch);
      TiledMatmul.TilesRunAll(tiles, m, feat, wt, m, k, n, was, r, ch);
    }
  }

  lemma OutputSize(m: nat, n: nat)
    requires n % 4 == 0
    ensures CeilDiv(n, 4) * (m * 1) * 4 == n * m
  {
    assert CeilDiv(n, 4) * 4 == n;
    assert CeilDiv(n, 4) * (m * 1) * 4 == n * m;
  }

  lemma FlatNext(kh: nat, kw: nat, c: int, kr: int)
    ensures Flat(kh, kw, c, kr, kw) == Flat(kh, kw, c, kr + 1, 0)
  {
    assert (c * kh + kr + 1) * kw == (c * kh + kr) * kw + kw;
  }

  lemma FlatNext2(kh: nat, kw: nat, c: int)
    ensures Flat(kh, kw, c, kh, 0) == Flat(kh, kw, c + 1, 0, 0)
  {
    assert (c + 1) * kh == c * kh + kh;
  }

  lemma ClearedIsFilled(op: Op, data: seq<int>, feat: seq<int>, m0: nat, mb: nat)
    requires op.Valid() && |feat| >= op.Kp() * mb && forall i :: 0 <= i < op.Kp() * mb ==> feat[i] == 0
    ensures Filled(op, data, feat, m0, mb, 0, 0)
  {
    forall r, c | 0 <= r < mb && 0 <= c < op.Kp() ensures At(feat, FeatPlace(mb, r, c)) == 0 { FeatPlaceInRange(op, mb, r, c); }
  }

  lemma PixelIndex(op: Op, data: seq<int>, c: nat, iy: int, ix: int)
    requires |data| == op.c * op.h * op.w && c < op.c && 0 <= iy < op.h && 0 <= ix < op.w
    ensures 0 <= c * op.h * op.w + iy * op.w + ix < |data|
    ensures Pixels(op, data)(c, iy, ix) == data[c * op.h * op.w + iy * op.w + ix]
  {
    DigitsBound(op.w, op.h, iy, ix);
    DigitsBound(op.h * op.w, op.c, c, iy * op.w + ix);
    assert c * (op.h * op.w) == c * op.h * op.w && op.c * (op.h * op.w) == op.c * op.h * op.w;
  }

  lemma SizesFit(op: Op)
    requires op.Valid()
    ensures 0 < op.K() <= MAX_K && 0 < op.Kp() < 65536 && 0 < op.Np() < 65536
  {
    MulLe(1, op.c, 1, op.kh);
    MulLe(1, op.c * op.kh, 1, op.kw);
    PaddedK(op);
    PaddedN(op);
  }

  lemma PaddedN(op: Op)
    ensures op.outC <= op.Np() && op.Np() % 4 == 0 && op.Np() < op.outC + 32
  {
    TiledMatmul.CeilCounts(op.outC, 32);
  }

  /** Columns 0 .. m0 of every output row are final. */
  ghost predicate Emitted(op: Op, out: seq<int>, acc: (int, int) -> int, m0: nat)
    requires op.Valid()
  {
    forall n, mm :: 0 <= n < op.outC && 0 <= mm < m0 ==> At(out, OutIndex(op, n, mm)) == acc(n, mm)
  }

  function OutIndex(op: Op, n: int, mm: int): int
    requires op.Valid()
  {
    n * op.M() + mm
  }

  lemma NothingEmitted(op: Op, out: seq<int>, acc: (int, int) -> int)
    requires op.Valid()
    ensures Emitted(op, out, acc, 0)
  {
  }

  /** In the middle of a block: rows before n, and the first `row` entries of row n. */
  ghost predicate EmittedPart(op: Op, out: seq<int>, acc: (int, int) -> int, m0: nat, mb: nat, n: int, row: int)
    requires op.Valid()
  {
    forall i, mm :: 0 <= i < op.outC && 0 <= mm < op.M() && (mm < m0 || (mm < m0 + mb && (i < n || (i == n && mm < m0 + row)))) ==>
      At(out, OutIndex(op, i, mm)) == acc(i, mm)
  }

  lemma EmitStart(op: Op, out: seq<int>, acc: (int, int) -> int, m0: nat, mb: nat)
    requires op.Valid() && Emitted(op, out, acc, m0)
    ensures EmittedPart(op, out, acc, m0, mb, 0, 0)
  {
  }

  lemma EmitOne(op: Op, out: seq<int>, acc: (int, int) -> int, m0: nat, mb: nat, n: int, row: int)
    requires op.Valid() && EmittedPart(op, out, acc, m0, mb, n, row) && |out| == op.outC * op.M()
    requires 0 <= n < op.outC && 0 <= row < mb && m0 + mb <= op.M()
    ensures 0 <= OutIndex(op, n, m0 + row) < |out|
    ensures EmittedPart(op, out[OutIndex(op, n, m0 + row) := acc(n, m0 + row)], acc, m0, mb, n, row + 1)
  {
    DigitsBound(op.M(), op.outC, n, m0 + row);
    forall i, mm | 0 <= i < op.outC && 0 <= mm < op.M() && OutIndex(op, i, mm) == OutIndex(op, n, m0 + row)
      ensures i == n && mm == m0 + row
    {
      Digits(op.M(), i, mm, n, m0 + row);
    }
    forall i, mm | 0 <= i < op.outC && 0 <= mm < op.M() ensures 0 <= OutIndex(op, i, mm) < |out| {
      DigitsBound(op.M(), op.outC, i, mm);
    }
  }

  /** Columns before m0 and from m0 + mb on are as they were. */
  ghost predicate OtherColumns(op: Op, was: seq<int>, out: seq<int>, m0: nat, mb: nat)
    requires op.Valid()
  {
    forall n, mm :: 0 <= n < op.outC && 0 <= mm < op.M() && !(m0 <= mm < m0 + mb) ==>
      At(out, OutIndex(op, n, mm)) == At(was, OutIndex(op, n, mm))
  }

  lemma OtherKept(op: Op, was: seq<int>, out: seq<int>, v: int, m0: nat, mb: nat, n: int, row: int)
    requires op.Valid() && OtherColumns(op, was, out, m0, mb) && |out| == op.outC * op.M()
    requires 0 <= n < op.outC && 0 <= row < mb && m0 + mb <= op.M() && 0 <= OutIndex(op, n, m0 + row) < |out|
    ensures OtherColumns(op, was, out[OutIndex(op, n, m0 + row) := v], m0, mb)
  {
    forall i, mm | 0 <= i < op.outC && 0 <= mm < op.M() && OutIndex(op, i, mm) == OutIndex(op, n, m0 + row)
      ensures mm == m0 + row
    {
      Digits(op.M(), i, mm, n, m0 + row);
    }
  }

  lemma EmitRow(op: Op, out: seq<int>, acc: (int, int) -> int, m0: nat, mb: nat, n: int)
    requires op.Valid() && EmittedPart(op, out, acc, m0, mb, n, mb)
    ensures EmittedPart(op, out, acc, m0, mb, n + 1, 0)
  {
  }

  lemma EmitEnd(op: Op, out: seq<int>, acc: (int, int) -> int, m0: nat, mb: nat)
    requires op.Valid() && EmittedPart(op, out, acc, m0, mb, op.outC, 0) && m0 + mb <= op.M()
    ensures Emitted(op, out, acc, m0 + mb)
  {
  }
}
