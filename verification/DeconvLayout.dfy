/** The lowering through NPU memory: the dilated input packed into an align-4 feature cube
    and the flipped weights at the places of deconv_weight make the engine produce exactly
    what deconv_int8_ref computes (src/npulib/npu_deconv.h, npu_deconv.c). */
module DeconvLayout {
  import opened Layout
  import opened Strides
  import opened Scatter
  import opened Conv
  import opened Deconv
  import opened DeconvRef

  // ---------------------------------------------------------------- the region

  /** Output height and width of the generated convolution. */
  function ConvOutH(g: Geometry): int { g.inH + g.padTop + g.padBottom - g.kh + 1 }
  function ConvOutW(g: Geometry): int { g.inW + g.padLeft + g.padRight - g.kw + 1 }

  /** No field of the descriptor is narrowed. */
  predicate Fits(p: Params) {
    && Align4(p.DilatedH()) < 65536 && Align4(p.DilatedW()) < 65536
    && p.ConvPadBottom() < 256 && p.ConvPadRight() < 256
  }

  /** The generated convolution produces every row and column of a nonempty true output
      exactly when no descriptor field was narrowed. */
  lemma RegionCoveredIff(p: Params)
    requires p.Valid() && GenDeconv(p).Descriptor? && p.OutH() > 0 && p.OutW() > 0
    ensures p.OutH() <= ConvOutH(GenDeconv(p).g) && p.OutW() <= ConvOutW(GenDeconv(p).g) <==> Fits(p)
  {
    DilatedPositive(p);
    assert p.OutH() == p.DilatedH() - 1 - (p.padTop + p.padBottom) + p.kh + p.opH;
    assert p.OutW() == p.DilatedW() - 1 - (p.padLeft + p.padRight) + p.kw + p.opW;
    AxisCovered(p.DilatedH(), p.kh, p.padTop, p.padBottom, p.opH);
    AxisCovered(p.DilatedW(), p.kw, p.padLeft, p.padRight, p.opW);
  }

  /** A layer is handed over exactly when on every side the padding leaves the kernel a row
      or column, output padding counted on the far sides. */
  lemma RejectedIff(p: Params)
    requires p.Valid()
    ensures GenDeconv(p).Descriptor? <==> p.padTop < p.kh && p.padLeft < p.kw && p.padBottom < p.kh + p.opH && p.padRight < p.kw + p.opW
    ensures !GenDeconv(p).Descriptor? ==> GenDeconv(p) == Rejected(-3)
  {
  }

  /** 258 rows at stride 255 dilate to 65536. */
  const TALL := Params(258, 4, 1, 1, 1, 1, 255, 1, 0, 0, 0, 0, 0, 0)

  /** Its height field is narrowed to 0 and not one of the 65536 rows is produced. */
  lemma TallIsLost()
    ensures TALL.Valid() && TALL.OutH() == 65536 && TALL.OutW() == 4 && !Fits(TALL)
    ensures GenDeconv(TALL).Descriptor? && ConvOutH(GenDeconv(TALL).g) == 0
  {
    TallSizes();
    assert Align4(65536) % 65536 == 0;
    hide Params.OutH, Params.OutW, Params.DilatedH, Params.DilatedW, Params.Valid, Align4;
  }

  lemma TallSizes()
    ensures TALL.Valid() && TALL.DilatedH() == 65536 && TALL.OutH() == 65536 && TALL.OutW() == 4
  {
  }

  lemma DilatedPositive(p: Params)
    requires p.inH > 0 && p.inW > 0
    ensures p.DilatedH() > 0 && p.DilatedW() > 0
  {
    assert (p.inH - 1) * p.strideH >= 0 && (p.inW - 1) * p.strideW >= 0;
  }

  /** One axis: dilated size d, kernel k, pads and output padding. */
  lemma AxisCovered(d: int, k: int, padLo: int, padHi: int, op: int)
    requires d >= 0 && 0 < k < 256 && 0 <= k - 1 - padLo < 256 && 0 <= k - 1 - padHi + op
    requires d - 1 - (padLo + padHi) + k + op > 0
    ensures
      d - 1 - (padLo + padHi) + k + op <= Align4(d) % 65536 + (k - 1 - padLo) % 256 + (k - 1 - padHi + op) % 256 - k + 1
      <==> Align4(d) < 65536 && k - 1 - padHi + op < 256
  {
    AlignUp(d);
    Narrowed(Align4(d), 65536);
    Narrowed(k - 1 - padLo, 256);
    Narrowed(k - 1 - padHi + op, 256);
  }

  lemma AlignUp(x: int)
    ensures x <= Align4(x) <= x + 3 && Align4(x) % 4 == 0
  {
  }

  lemma Narrowed(x: int, m: nat)
    requires m > 0 && x >= 0
    ensures if x < m then x % m == x else x % m <= x - m
  {
    DivMod(x, m);
    if x < m { Digits(m, x / m, x % m, 0, x); } else { Step(x / m, 1, m); assert x / m >= 1; assert (x / m - 1) * m >= 0; }
  }

  // ---------------------------------------------------------------- the layouts

  /** Place of the s-th element of the dense dilated input [in_c][dil_h][dil_w]. */
  function DilatedPlace(p: Params, g: Geometry): int -> int
    requires p.DilatedH() > 0 && p.DilatedW() > 0
  {
    s =>
      var i := Decode(p.DilatedH(), p.DilatedW(), 1, s);
      FeatureData(g.inH, g.inW, 16, i.a + 1, i.b + 1, i.c + 1)
  }

  function DilatedValue(p: Params, x: Image): int -> int
    requires p.Valid() && p.DilatedH() > 0 && p.DilatedW() > 0
  {
    s => var i := Decode(p.DilatedH(), p.DilatedW(), 1, s); Dilated(p, x)(i.a, i.b, i.c)
  }

  /** The zeroed feature cube after every dilated element went to its place. */
  function DilatedCube(p: Params, g: Geometry, x: Image, size: nat): seq<int>
    requires p.Valid() && p.DilatedH() > 0 && p.DilatedW() > 0
  {
    WriteAll(Zeros(size), Count(p.inC, p.DilatedH(), p.DilatedW(), 1), DilatedPlace(p, g), DilatedValue(p, x))
  }

  /** Place of the s-th transposed-convolution weight [in_c][out_c][kh][kw]. */
  function FlippedPlace(p: Params): int -> int
    requires p.outC > 0 && p.kh > 0 && p.kw > 0
  {
    s => var i := Decode(p.outC, p.kh, p.kw, s); DeconvWeight(p, i.b + 1, i.a + 1, i.c, i.d)
  }

  function FlippedLayout(p: Params, w: seq<int>, size: nat): seq<int>
    requires p.outC > 0 && p.kh > 0 && p.kw > 0
  {
    WriteAll(Zeros(size), Count(p.inC, p.outC, p.kh, p.kw), FlippedPlace(p), s => At(w, s))
  }

  // ---------------------------------------------------------------- what the engine reads

  /** A nonempty output, and a descriptor with no field narrowed. */
  ghost predicate Generated(p: Params, g: Geometry) {
    p.Valid() && p.OutH() > 0 && p.OutW() > 0 && GenDeconv(p) == Descriptor(g) && Fits(p)
  }

  /** And no two weights share a place. */
  ghost predicate Lowerable(p: Params, g: Geometry) {
    Generated(p, g) && (p.kh * p.kw * p.inC % 32 == 0 || p.outC <= 32)
  }

  /** A 2 x 2 input of 32 channels, 2 x 2 kernel, stride 2. */
  const DOUBLING := Params(2, 2, 32, 32, 2, 2, 2, 2, 0, 0, 0, 0, 0, 0)

  /** The premises describe real layers. */
  lemma DoublingIsLowerable()
    ensures GenDeconv(DOUBLING).Descriptor? && Lowerable(DOUBLING, GenDeconv(DOUBLING).g) && DOUBLING.DilatedH() == 3
  {
  }

  lemma GeneratedGeometry(p: Params, g: Geometry)
    requires Generated(p, g)
    ensures Lowers(p, g) && p.DilatedH() > 0 && p.DilatedW() > 0
    ensures p.DilatedH() <= g.inH && p.DilatedW() <= g.inW && g.outC == p.outC
  {
    DilatedPositive(p);
    AlignedKept(p.DilatedH());
    AlignedKept(p.DilatedW());
    Narrowed(p.ConvPadTop(), 256);
    Narrowed(p.ConvPadLeft(), 256);
  }

  lemma AlignedKept(d: int)
    requires 0 <= d && Align4(d) < 65536
    ensures d <= Align4(d) % 65536
  {
    AlignUp(d);
    Narrowed(Align4(d), 65536);
  }

  /** On-grid positions stay inside the dilated extent. */
  lemma GridInside(n: nat, s: nat, y: int)
    requires n > 0 && s > 0 && OnGrid(n, s, y)
    ensures 0 <= y < (n - 1) * s + 1
  {
    DivMod(y, s);
    Step(y / s, n, s);
  }

  lemma DilatedPlaceOf(p: Params, g: Geometry, s: int)
    requires Generated(p, g) && p.DilatedH() > 0 && p.DilatedW() > 0 && 0 <= s < Count(p.inC, p.DilatedH(), p.DilatedW(), 1)
    ensures
      var i := Decode(p.DilatedH(), p.DilatedW(), 1, s);
      && 0 <= i.a < p.inC && 0 <= i.b < p.DilatedH() && 0 <= i.c < p.DilatedW() && i.d == 0
      && Encode(p.DilatedH(), p.DilatedW(), 1, i.a, i.b, i.c, i.d) == s
      && DilatedPlace(p, g)(s) == FeatureData(g.inH, g.inW, 16, i.a + 1, i.b + 1, i.c + 1)
  {
    EncodeDecode(p.inC, p.DilatedH(), p.DilatedW(), 1, s);
  }

  lemma DilatedPlacesDistinct(p: Params, g: Geometry, s: int, t: int)
    requires Generated(p, g) && p.DilatedH() > 0 && p.DilatedW() > 0
    requires 0 <= s < Count(p.inC, p.DilatedH(), p.DilatedW(), 1) && 0 <= t < Count(p.inC, p.DilatedH(), p.DilatedW(), 1)
    requires DilatedPlace(p, g)(s) == DilatedPlace(p, g)(t)
    ensures s == t
  {
    GeneratedGeometry(p, g);
    DilatedPlaceOf(p, g, s);
    DilatedPlaceOf(p, g, t);
    var (i, j) := (Decode(p.DilatedH(), p.DilatedW(), 1, s), Decode(p.DilatedH(), p.DilatedW(), 1, t));
    FeatureInjective(g.inH, g.inW, 16, i.a + 1, i.b + 1, i.c + 1, j.a + 1, j.b + 1, j.c + 1);
  }

  /** Inside the dilated extent the cube holds the dilated image. */
  lemma CubeInside(p: Params, g: Geometry, x: Image, size: nat, ci: int, y: int, c: int)
    requires Generated(p, g) && p.DilatedH() > 0 && p.DilatedW() > 0 && size >= CeilDiv(p.inC, 16) * (g.inH * g.inW) * 16
    requires 0 <= ci < p.inC && 0 <= y < p.DilatedH() && 0 <= c < p.DilatedW()
    ensures At(DilatedCube(p, g, x, size), FeatureData(g.inH, g.inW, 16, ci + 1, y + 1, c + 1)) == Dilated(p, x)(ci, y, c)
  {
    GeneratedGeometry(p, g);
    var n := Count(p.inC, p.DilatedH(), p.DilatedW(), 1);
    var place := DilatedPlace(p, g);
    var s := Encode(p.DilatedH(), p.DilatedW(), 1, ci, y, c, 0);
    DecodeEncode(p.inC, p.DilatedH(), p.DilatedW(), 1, ci, y, c, 0);
    FeatureInRange(p.inC, g.inH, g.inW, 16, ci + 1, y + 1, c + 1);
    forall i, j | 0 <= i < n && 0 <= j < n && place(i) == place(j) ensures i == j { DilatedPlacesDistinct(p, g, i, j); }
    HeldWhereWritten(size, n, place, DilatedValue(p, x), s);
  }

  lemma DilatedElsewhere(p: Params, g: Geometry, s: int, ci: int, y: int, c: int)
    requires Generated(p, g) && p.DilatedH() > 0 && p.DilatedW() > 0 && 0 <= s < Count(p.inC, p.DilatedH(), p.DilatedW(), 1)
    requires 0 <= ci < p.inC && 0 <= y < g.inH && 0 <= c < g.inW && !(y < p.DilatedH() && c < p.DilatedW())
    ensures DilatedPlace(p, g)(s) != FeatureData(g.inH, g.inW, 16, ci + 1, y + 1, c + 1)
  {
    GeneratedGeometry(p, g);
    DilatedPlaceOf(p, g, s);
    var i := Decode(p.DilatedH(), p.DilatedW(), 1, s);
    if DilatedPlace(p, g)(s) == FeatureData(g.inH, g.inW, 16, ci + 1, y + 1, c + 1) {
      FeatureInjective(g.inH, g.inW, 16, i.a + 1, i.b + 1, i.c + 1, ci + 1, y + 1, c + 1);
    }
  }

  /** In the alignment rows and columns it holds zeros. */
  lemma CubeOutside(p: Params, g: Geometry, x: Image, size: nat, ci: int, y: int, c: int)
    requires Generated(p, g) && p.DilatedH() > 0 && p.DilatedW() > 0 && size >= CeilDiv(p.inC, 16) * (g.inH * g.inW) * 16
    requires 0 <= ci < p.inC && 0 <= y < g.inH && 0 <= c < g.inW && !(y < p.DilatedH() && c < p.DilatedW())
    ensures At(DilatedCube(p, g, x, size), FeatureData(g.inH, g.inW, 16, ci + 1, y + 1, c + 1)) == 0
  {
    GeneratedGeometry(p, g);
    var n := Count(p.inC, p.DilatedH(), p.DilatedW(), 1);
    var place := DilatedPlace(p, g);
    var q := FeatureData(g.inH, g.inW, 16, ci + 1, y + 1, c + 1);
    hide FeatureData, DilatedPlace, DilatedValue, CeilDiv, Count;
    forall s | 0 <= s < n ensures place(s) != q { DilatedElsewhere(p, g, s, ci, y, c); }
    ZeroElsewhere(size, n, place, DilatedValue(p, x), q);
  }

  /** The layout holds the dilated image, extended by zeros. */
  lemma CubeHoldsDilated(p: Params, g: Geometry, x: Image, size: nat, ci: int, y: int, c: int)
    requires Generated(p, g) && p.DilatedH() > 0 && p.DilatedW() > 0 && size >= CeilDiv(p.inC, 16) * (g.inH * g.inW) * 16
    requires 0 <= ci < p.inC
    ensures LaidOut(g, DilatedCube(p, g, x, size))(ci, y, c) == Dilated(p, x)(ci, y, c)
  {
    GeneratedGeometry(p, g);
    if OnGrid(p.inH, p.strideH, y) { GridInside(p.inH, p.strideH, y); }
    if OnGrid(p.inW, p.strideW, c) { GridInside(p.inW, p.strideW, c); }
    if 0 <= y < g.inH && 0 <= c < g.inW {
      if y < p.DilatedH() && c < p.DilatedW() {
        CubeInside(p, g, x, size, ci, y, c);
      } else {
        CubeOutside(p, g, x, size, ci, y, c);
      }
    }
  }

  /** Aligning the height to 4 is what lets the strides reach every lane. */
  lemma AlignedInPlace(p: Params, g: Geometry)
    requires p.Valid() && GenDeconv(p) == Descriptor(g)
    ensures InPlace(g.inH, g.inW, g.inC) && g.inC == p.inC
  {
    AlignUp(p.DilatedH());
    FourDivides(Align4(p.DilatedH()));
  }

  lemma FourDivides(x: int)
    requires x % 4 == 0
    ensures x % 65536 % 4 == 0
  {
    DivMod(x, 4);
    DivMod(x, 65536);
    QuotRem(4, x / 4 - 16384 * (x / 65536), 0);
  }

  /** Without it they would not: the dilated height itself, 7 rows for a 4 x 4 input at
      stride 2, leaves the second plane out of place. */
  lemma UnalignedOutOfPlace(p: Params, y: int, x: int)
    requires p.Valid() && p.DilatedH() > 0 && p.DilatedW() > 0 && p.DilatedH() % 4 != 0 && p.DilatedH() * p.DilatedW() != 1
    ensures EnginePlace(p.DilatedH(), p.DilatedW(), y, x, 16) != FeatureData(p.DilatedH(), p.DilatedW(), 16, 17, y + 1, x + 1)
  {
    hide Params.DilatedH, Params.DilatedW, EnginePlace, FeatureData;
    FetchOutOfPlace(p.DilatedH(), p.DilatedW(), y, x, 16);
  }

  /** Wherever the engine looks, it fetches the dilated image. */
  lemma FetchesDilated(p: Params, g: Geometry, x: Image, size: nat, ci: int, y: int, c: int)
    requires Generated(p, g) && p.DilatedH() > 0 && p.DilatedW() > 0 && size >= CeilDiv(p.inC, 16) * (g.inH * g.inW) * 16
    requires 0 <= ci < p.inC
    ensures Fetch(g, DilatedCube(p, g, x, size))(ci, y, c) == Dilated(p, x)(ci, y, c)
  {
    hide Fetch, LaidOut, DilatedCube, Dilated, InPlace;
    AlignedInPlace(p, g);
    FetchesLaidOut(g, DilatedCube(p, g, x, size), ci, y, c);
    CubeHoldsDilated(p, g, x, size, ci, y, c);
  }

  lemma FlippedPlaceOf(p: Params, s: int)
    requires p.Valid() && 0 <= s < Count(p.inC, p.outC, p.kh, p.kw)
    ensures
      var i := Decode(p.outC, p.kh, p.kw, s);
      && 0 <= i.a < p.inC && 0 <= i.b < p.outC && 0 <= i.c < p.kh && 0 <= i.d < p.kw
      && Encode(p.outC, p.kh, p.kw, i.a, i.b, i.c, i.d) == s
      && FlippedPlace(p)(s) == Conv2dWeight(p.inC, p.kh, p.kw, i.b + 1, i.a + 1, p.kh - 1 - i.c, p.kw - 1 - i.d)
  {
    EncodeDecode(p.inC, p.outC, p.kh, p.kw, s);
  }

  lemma FlippedPlacesDistinct(p: Params, s: int, t: int)
    requires p.Valid() && (p.kh * p.kw * p.inC % 32 == 0 || p.outC <= 32)
    requires 0 <= s < Count(p.inC, p.outC, p.kh, p.kw) && 0 <= t < Count(p.inC, p.outC, p.kh, p.kw)
    requires FlippedPlace(p)(s) == FlippedPlace(p)(t)
    ensures s == t
  {
    FlippedPlaceOf(p, s);
    FlippedPlaceOf(p, t);
    var (i, j) := (Decode(p.outC, p.kh, p.kw, s), Decode(p.outC, p.kh, p.kw, t));
    ConvWeightInjective(p.inC, p.kh, p.kw, p.outC, i.b + 1, i.a + 1, p.kh - 1 - i.c, p.kw - 1 - i.d,
                        j.b + 1, j.a + 1, p.kh - 1 - j.c, p.kw - 1 - j.d);
  }

  /** The engine reads the flipped kernel. */
  lemma FetchesFlipped(p: Params, g: Geometry, w: seq<int>, size: nat, co: int, ci: int, i: int, j: int)
    requires Lowerable(p, g) && size >= ConvRoom(p.inC, p.kh, p.kw, p.outC)
    requires 0 <= co < p.outC && 0 <= ci < p.inC && 0 <= i < p.kh && 0 <= j < p.kw
    ensures FetchWeight(g, FlippedLayout(p, w, size))(co, ci, i, j) == Flipped(p, PlainKernel(p, w))(co, ci, i, j)
  {
    hide FlippedLayout, Conv2dWeight, Encode, ConvRoom;
    FlippedHeld(p, w, size, co, ci, p.kh - 1 - i, p.kw - 1 - j);
    FlippedIs(p, w, co, ci, i, j);
    LowersAlike(p, g);
  }

  lemma LowersAlike(p: Params, g: Geometry)
    requires Lowerable(p, g)
    ensures g.inC == p.inC && g.kh == p.kh && g.kw == p.kw
  {
  }

  lemma FlippedIs(p: Params, w: seq<int>, co: int, ci: int, i: int, j: int)
    ensures Flipped(p, PlainKernel(p, w))(co, ci, i, j) == At(w, Encode(p.outC, p.kh, p.kw, ci, co, p.kh - 1 - i, p.kw - 1 - j))
  {
  }

  lemma FlippedHeld(p: Params, w: seq<int>, size: nat, co: int, ci: int, ki: int, kj: int)
    requires p.Valid() && (p.kh * p.kw * p.inC % 32 == 0 || p.outC <= 32) && size >= ConvRoom(p.inC, p.kh, p.kw, p.outC)
    requires 0 <= co < p.outC && 0 <= ci < p.inC && 0 <= ki < p.kh && 0 <= kj < p.kw
    ensures At(FlippedLayout(p, w, size), Conv2dWeight(p.inC, p.kh, p.kw, co + 1, ci + 1, p.kh - 1 - ki, p.kw - 1 - kj))
         == At(w, Encode(p.outC, p.kh, p.kw, ci, co, ki, kj))
  {
    var n := Count(p.inC, p.outC, p.kh, p.kw);
    var place := FlippedPlace(p);
    var s := Encode(p.outC, p.kh, p.kw, ci, co, ki, kj);
    DecodeEncode(p.inC, p.outC, p.kh, p.kw, ci, co, ki, kj);
    FlippedPlaceOf(p, s);
    ConvWeightInRange(p.inC, p.kh, p.kw, p.outC, co + 1, ci + 1, p.kh - 1 - ki, p.kw - 1 - kj);
    forall a, b | 0 <= a < n && 0 <= b < n && place(a) == place(b) ensures a == b { FlippedPlacesDistinct(p, a, b); }
    HeldWhereWritten(size, n, place, t => At(w, t), s);
  }

  /** The lowering is exact: at every position of the true output the engine's accumulator
      is what deconv_int8_ref leaves there. */
  lemma DeconvLoweringExact(p: Params, g: Geometry, X: seq<int>, W: seq<int>, cubeSize: nat, weightSize: nat,
                            co: int, ho: int, wo: int)
    requires Lowerable(p, g) && p.DilatedH() > 0 && p.DilatedW() > 0 && Inside(p, co, ho, wo)
    requires cubeSize >= CeilDiv(p.inC, 16) * (g.inH * g.inW) * 16
    requires weightSize >= ConvRoom(p.inC, p.kh, p.kw, p.outC)
    ensures ho < ConvOutH(g) && wo < ConvOutW(g)
    ensures NpuConv(g, DilatedCube(p, g, Plain(p, X), cubeSize), FlippedLayout(p, W, weightSize), co, ho, wo)
         == ScatteredImage(p, Plain(p, X), PlainKernel(p, W))(co, ho, wo)
  {
    GeneratedGeometry(p, g);
    RegionCoveredIff(p);
    var (x, w) := (Plain(p, X), PlainKernel(p, W));
    var (cube, layout) := (DilatedCube(p, g, x, cubeSize), FlippedLayout(p, W, weightSize));
    forall ic, y, c | 0 <= ic < g.inC ensures Fetch(g, cube)(ic, y, c) == Dilated(p, x)(ic, y, c) {
      FetchesDilated(p, g, x, cubeSize, ic, y, c);
    }
    forall ic, kr, kc | 0 <= ic < g.inC && 0 <= kr < g.kh && 0 <= kc < g.kw
      ensures FetchWeight(g, layout)(co, ic, kr, kc) == Flipped(p, w)(co, ic, kr, kc)
    {
      FetchesFlipped(p, g, W, weightSize, co, ic, kr, kc);
    }
    ConvolveCong(g, Fetch(g, cube), FetchWeight(g, layout), Dilated(p, x), Flipped(p, w), co, ho, wo);
    LoweringIsScatter(p, g, x, w, co, ho, wo);
  }
}
