/** Where the NPU keeps tensors: feature cubes (NC1HWC2) and weights in 32 x 32 tiles.
    Indices are 1-based, as in src/npulib/npu_matmul.c and npu_conv2d.c. */
module Layout {

  function CeilDiv(a: nat, b: nat): nat
    requires b > 0
  {
    (a + b - 1) / b
  }

  function FeatureData(H: nat, W: nat, C2: nat, c: int, h: int, w: int): int
    requires C2 > 0
  {
    (c - 1) / C2 * H * W * C2 + C2 * ((h - 1) * W + (w - 1)) + (c - 1) % C2
  }

  function WeightInt8(C: nat, k: int, c: int): int {
    (c - 1) / 32 * 32 * 32 + (k - 1) / 32 * 32 * C + (c - 1) % 32 + (k - 1) % 32 * 32
  }

  function Conv2dWeight(inC: nat, kh: nat, kw: nat, oc: int, ic: int, krow: int, kcol: int): int {
    WeightInt8(kh * kw * inC, oc, krow * kw * inC + kcol * inC + ic)
  }

  /** Weights are laid down 32 channels of a kernel at a time, kernel after kernel to 32,
      then the next 32 channels of the same kernels, then the next 32 kernels. */
  lemma WeightWalk(C: nat, k: int, c: int)
    requires 1 <= k && 1 <= c
    ensures WeightInt8(C, 1, 1) == 0
    ensures c % 32 != 0 ==> WeightInt8(C, k, c + 1) == WeightInt8(C, k, c) + 1
    ensures k % 32 != 0 ==> WeightInt8(C, k + 1, c) == WeightInt8(C, k, c) + 32
    ensures WeightInt8(C, k, c + 32) == WeightInt8(C, k, c) + 32 * 32
    ensures WeightInt8(C, k + 32, c) == WeightInt8(C, k, c) + 32 * C
  {
    assert c % 32 != 0 ==> c / 32 == (c - 1) / 32 && c % 32 == (c - 1) % 32 + 1;
    assert k % 32 != 0 ==> k / 32 == (k - 1) / 32 && k % 32 == (k - 1) % 32 + 1;
    assert (c + 31) / 32 == (c - 1) / 32 + 1 && (c + 31) % 32 == (c - 1) % 32;
    assert (k + 31) / 32 == (k - 1) / 32 + 1 && (k + 31) % 32 == (k - 1) % 32;
    OneGroupMore((k - 1) / 32, C);
  }

  lemma OneGroupMore(q: int, C: nat)
    ensures (q + 1) * 32 * C == q * 32 * C + 32 * C
  {
  }

  /** The channels of a convolution kernel run over input channels first, then columns, then
      rows. */
  lemma ConvWeightWalk(inC: nat, kh: nat, kw: nat, oc: int, ic: int, krow: int, kcol: int)
    requires inC > 0 && kw > 0
    ensures
      var C := kh * kw * inC;
      && Conv2dWeight(inC, kh, kw, oc, 1, 0, 0) == WeightInt8(C, oc, 1)
      && Conv2dWeight(inC, kh, kw, oc, inC + 1, krow, kcol) == Conv2dWeight(inC, kh, kw, oc, 1, krow, kcol + 1)
      && Conv2dWeight(inC, kh, kw, oc, ic, krow, kw) == Conv2dWeight(inC, kh, kw, oc, ic, krow + 1, 0)
  {
    assert (krow + 1) * kw * inC == krow * kw * inC + kw * inC;
    assert (kcol + 1) * inC == kcol * inC + inC;
  }

  // ---------------------------------------------------------------- mixed radix

  /** High and low digits in base m are determined by the number. */
  lemma Digits(m: int, a: int, b: int, c: int, d: int)
    requires 0 <= b < m && 0 <= d < m && a * m + b == c * m + d
    ensures a == c && b == d
  {
    Step(a, c, m);
    Step(c, a, m);
  }

  lemma Step(a: int, c: int, m: int)
    requires m > 0
    ensures a < c ==> a * m + m <= c * m
  {
    if a < c {
      MulLe(0, c - a - 1, 0, m);
      assert (c - a - 1) * m == c * m - a * m - m;
    }
  }

  lemma MulLe(a: nat, b: nat, c: nat, d: nat)
    requires a <= b && c <= d
    ensures a * c <= b * d
  {
    assert a * c <= b * c by { assert (b - a) * c >= 0; }
    assert b * c <= b * d by { assert b * (d - c) >= 0; }
  }

  lemma DigitsBound(m: nat, n: nat, a: int, b: int)
    requires 0 <= a < n && 0 <= b < m
    ensures 0 <= a * m + b < n * m
  {
    MulLe(a + 1, n, m, m);
    MulLe(0, a, m, m);
    assert (a + 1) * m == a * m + m;
  }

  lemma DivMod(x: int, m: nat)
    requires m > 0
    ensures x == x / m * m + x % m && 0 <= x % m < m && (0 <= x ==> 0 <= x / m)
  {
  }

  lemma DivBound(x: nat, n: nat, m: nat)
    requires m > 0 && x < n
    ensures x / m < CeilDiv(n, m)
  {
    DivMod(n + m - 1, m);
    DivMod(x, m);
    var (q, u) := (x / m, CeilDiv(n, m));
    Step(q, u, m);
    Step(u, q + 1, m);
  }

  // ---------------------------------------------------------------- feature cubes

  ghost predicate InCube(H: nat, W: nat, c: int, h: int, w: int) {
    1 <= c && 1 <= h <= H && 1 <= w <= W
  }

  /** The position, read as digits: plane, pixel, lane. */
  lemma FeatureDigits(H: nat, W: nat, C2: nat, c: int, h: int, w: int)
    requires C2 > 0 && InCube(H, W, c, h, w)
    ensures 0 <= (h - 1) * W + (w - 1) < H * W
    ensures FeatureData(H, W, C2, c, h, w) == ((c - 1) / C2 * (H * W) + ((h - 1) * W + (w - 1))) * C2 + (c - 1) % C2
  {
    DigitsBound(W, H, h - 1, w - 1);
    var (p, x) := ((c - 1) / C2, (h - 1) * W + (w - 1));
    assert p * H * W == p * (H * W);
    assert (p * (H * W) + x) * C2 == p * (H * W) * C2 + C2 * x;
  }

  /** No two elements of a cube share a byte, whatever its shape. */
  lemma FeatureInjective(H: nat, W: nat, C2: nat, c: int, h: int, w: int, c': int, h': int, w': int)
    requires C2 > 0 && InCube(H, W, c, h, w) && InCube(H, W, c', h', w')
    requires FeatureData(H, W, C2, c, h, w) == FeatureData(H, W, C2, c', h', w')
    ensures c == c' && h == h' && w == w'
  {
    FeatureDigits(H, W, C2, c, h, w);
    FeatureDigits(H, W, C2, c', h', w');
    DivMod(c - 1, C2);
    DivMod(c' - 1, C2);
    Digits(C2, (c - 1) / C2 * (H * W) + ((h - 1) * W + (w - 1)), (c - 1) % C2,
           (c' - 1) / C2 * (H * W) + ((h' - 1) * W + (w' - 1)), (c' - 1) % C2);
    Digits(H * W, (c - 1) / C2, (h - 1) * W + (w - 1), (c' - 1) / C2, (h' - 1) * W + (w' - 1));
    Digits(W, h - 1, w - 1, h' - 1, w' - 1);
  }

  /** A cube of C channels fits the padded buffer. */
  lemma FeatureInRange(C: nat, H: nat, W: nat, C2: nat, c: int, h: int, w: int)
    requires C2 > 0 && InCube(H, W, c, h, w) && c <= C
    ensures 0 <= FeatureData(H, W, C2, c, h, w) < CeilDiv(C, C2) * (H * W) * C2
  {
    FeatureDigits(H, W, C2, c, h, w);
    DivMod(c - 1, C2);
    DivBound(c - 1, C, C2);
    var x := (h - 1) * W + (w - 1);
    DigitsBound(H * W, CeilDiv(C, C2), (c - 1) / C2, x);
    DigitsBound(C2, CeilDiv(C, C2) * (H * W), (c - 1) / C2 * (H * W) + x, (c - 1) % C2);
  }

  // ---------------------------------------------------------------- weights

  lemma WeightDigits(C: nat, k: int, c: int)
    requires 1 <= k && 1 <= c
    ensures WeightInt8(C, k, c) == ((k - 1) / 32 * C + (c - 1) / 32 * 32 + (k - 1) % 32) * 32 + (c - 1) % 32
  {
    var kg := (k - 1) / 32;
    assert kg * 32 * C == kg * C * 32;
  }

  /** Every kernel of every channel has a place of its own. */
  ghost predicate WeightsDistinct(C: nat, K: nat) {
    forall k, c, k', c' ::
      1 <= k <= K && 1 <= c <= C && 1 <= k' <= K && 1 <= c' <= C && WeightInt8(C, k, c) == WeightInt8(C, k', c') ==>
        k == k' && c == c'
  }

  lemma WeightInjective(C: nat, K: nat, k: int, c: int, k': int, c': int)
    requires C % 32 == 0 || K <= 32
    requires 1 <= k <= K && 1 <= c <= C && 1 <= k' <= K && 1 <= c' <= C
    requires WeightInt8(C, k, c) == WeightInt8(C, k', c')
    ensures k == k' && c == c'
  {
    WeightDigits(C, k, c);
    WeightDigits(C, k', c');
    var (kg, kr, cg) := ((k - 1) / 32, (k - 1) % 32, (c - 1) / 32);
    var (kg', kr', cg') := ((k' - 1) / 32, (k' - 1) % 32, (c' - 1) / 32);
    Digits(32, kg * C + cg * 32 + kr, (c - 1) % 32, kg' * C + cg' * 32 + kr', (c' - 1) % 32);
    if C % 32 == 0 {
      TileDigits(C, kg, cg, kr, kg', cg', kr');
    } else {
      assert kg == 0 && kg' == 0;
      Digits(32, cg, kr, cg', kr');
    }
  }

  lemma TileDigits(C: nat, kg: int, cg: int, kr: int, kg': int, cg': int, kr': int)
    requires C % 32 == 0 && 0 <= cg && cg * 32 < C && 0 <= cg' && cg' * 32 < C && 0 <= kr < 32 && 0 <= kr' < 32
    requires kg * C + cg * 32 + kr == kg' * C + cg' * 32 + kr'
    ensures kg == kg' && cg == cg' && kr == kr'
  {
    var q := C / 32;
    assert C == q * 32;
    assert kg * C == (kg * q) * 32 && kg' * C == (kg' * q) * 32;
    Digits(32, kg * q + cg, kr, kg' * q + cg', kr');
    Digits(q, kg, cg, kg', cg');
  }

  /** The tiling is collision-free exactly when the channel count is a multiple of 32 or
      one group of 32 kernels is all there is. */
  lemma WeightsDistinctIff(C: nat, K: nat)
    requires C > 0
    ensures WeightsDistinct(C, K) <==> C % 32 == 0 || K <= 32
  {
    if C % 32 == 0 || K <= 32 {
      forall k, c, k', c' | 1 <= k <= K && 1 <= c <= C && 1 <= k' <= K && 1 <= c' <= C && WeightInt8(C, k, c) == WeightInt8(C, k', c')
        ensures k == k' && c == c'
      {
        WeightInjective(C, K, k, c, k', c');
      }
    } else {
      var k, c := KernelCollides(C);
      assert k != 33 && WeightInt8(C, k, c) == WeightInt8(C, 33, 1);
    }
  }

  /** The first weight of kernel 33 lies on one of an earlier kernel. */
  lemma KernelCollides(C: nat) returns (k: nat, c: nat)
    requires C % 32 != 0
    ensures 1 <= k <= 32 && 1 <= c <= C && WeightInt8(C, k, c) == WeightInt8(C, 33, 1)
  {
    k, c := C % 32 + 1, C / 32 * 32 + 1;
    assert WeightInt8(C, 33, 1) == 32 * C;
    assert WeightInt8(C, k, c) == 1024 * (C / 32) + 32 * (C % 32);
  }

  /** Bytes of a weight buffer with both counts padded to multiples of 32. */
  function Room(C: nat, K: nat): nat {
    MulLe(0, CeilDiv(K, 32) * 32, 0, CeilDiv(C, 32) * 32);
    CeilDiv(K, 32) * 32 * (CeilDiv(C, 32) * 32)
  }

  /** Every weight lies in it, whatever the channel count. */
  lemma WeightInRange(C: nat, K: nat, k: int, c: int)
    requires 1 <= k <= K && 1 <= c <= C
    ensures 0 <= WeightInt8(C, k, c) < Room(C, K)
  {
    hide WeightInt8, CeilDiv;
    WideEnough(C);
    WholeInRange(CeilDiv(C, 32) * 32, K, k, c);
    WiderIsLater(C, CeilDiv(C, 32) * 32, k, c);
  }

  lemma WiderIsLater(C: nat, wide: nat, k: int, c: int)
    requires 1 <= k && 1 <= c && C <= wide
    ensures 0 <= WeightInt8(C, k, c) <= WeightInt8(wide, k, c)
  {
    MulLe((k - 1) / 32, (k - 1) / 32, C, wide);
    MulLe(0, (k - 1) / 32, 0, C);
    WeightDigits(C, k, c);
    WeightDigits(wide, k, c);
  }

  lemma WideEnough(C: nat)
    ensures C <= CeilDiv(C, 32) * 32 && CeilDiv(C, 32) * 32 % 32 == 0
    ensures C % 32 == 0 ==> CeilDiv(C, 32) * 32 == C
  {
  }

  lemma WholeInRange(C: nat, K: nat, k: int, c: int)
    requires C % 32 == 0 && 1 <= k <= K && 1 <= c <= C
    ensures 0 <= WeightInt8(C, k, c) < CeilDiv(K, 32) * 32 * C
  {
    WeightDigits(C, k, c);
    DivBound(k - 1, K, 32);
    DivMod(C, 32);
    TilesHold(CeilDiv(K, 32), C / 32, (k - 1) / 32, (c - 1) / 32, (k - 1) % 32, (c - 1) % 32);
    hide CeilDiv, WeightInt8;
    TileCount(CeilDiv(K, 32), C / 32, (k - 1) / 32);
  }

  /** Tile (kg, cg) of groups x q tiles, row kr and lane cl in it. */
  lemma TilesHold(groups: nat, q: nat, kg: int, cg: int, kr: int, cl: int)
    requires 0 <= kg < groups && 0 <= cg < q && 0 <= kr < 32 && 0 <= cl < 32
    ensures 0 <= ((kg * q + cg) * 32 + kr) * 32 + cl < groups * q * 32 * 32
  {
    DigitsBound(q, groups, kg, cg);
    var t := kg * q + cg;
    DigitsBound(32, groups * q, t, kr);
    DigitsBound(32, groups * q * 32, t * 32 + kr, cl);
  }

  lemma TileCount(groups: nat, q: nat, kg: int)
    ensures groups * q * 32 * 32 == groups * 32 * (q * 32) && kg * (q * 32) == kg * q * 32
  {
  }

  // ---------------------------------------------------------------- convolution weights

  /** A kernel element's 1-based place among its kernel's elements. */
  function FlatChannel(inC: nat, kw: nat, ic: int, krow: int, kcol: int): int {
    krow * kw * inC + kcol * inC + ic
  }

  lemma FlatChannelDigits(inC: nat, kh: nat, kw: nat, ic: int, krow: int, kcol: int)
    requires 1 <= ic <= inC && 0 <= krow < kh && 0 <= kcol < kw
    ensures FlatChannel(inC, kw, ic, krow, kcol) - 1 == (krow * kw + kcol) * inC + (ic - 1)
    ensures 1 <= FlatChannel(inC, kw, ic, krow, kcol) <= kh * kw * inC
  {
    assert (krow * kw + kcol) * inC == krow * kw * inC + kcol * inC;
    DigitsBound(kw, kh, krow, kcol);
    DigitsBound(inC, kh * kw, krow * kw + kcol, ic - 1);
  }

  lemma FlatChannelInjective(inC: nat, kh: nat, kw: nat, ic: int, krow: int, kcol: int, ic': int, krow': int, kcol': int)
    requires 1 <= ic <= inC && 0 <= krow < kh && 0 <= kcol < kw
    requires 1 <= ic' <= inC && 0 <= krow' < kh && 0 <= kcol' < kw
    requires FlatChannel(inC, kw, ic, krow, kcol) == FlatChannel(inC, kw, ic', krow', kcol')
    ensures ic == ic' && krow == krow' && kcol == kcol'
  {
    FlatChannelDigits(inC, kh, kw, ic, krow, kcol);
    FlatChannelDigits(inC, kh, kw, ic', krow', kcol');
    Digits(inC, krow * kw + kcol, ic - 1, krow' * kw + kcol', ic' - 1);
    Digits(kw, krow, kcol, krow', kcol');
  }

  /** Two kernel elements never share a place, under the same condition as the tiling. */
  lemma ConvWeightInjective(inC: nat, kh: nat, kw: nat, outC: nat,
                            oc: int, ic: int, krow: int, kcol: int, oc': int, ic': int, krow': int, kcol': int)
    requires kh * kw * inC % 32 == 0 || outC <= 32
    requires 1 <= oc <= outC && 1 <= ic <= inC && 0 <= krow < kh && 0 <= kcol < kw
    requires 1 <= oc' <= outC && 1 <= ic' <= inC && 0 <= krow' < kh && 0 <= kcol' < kw
    requires Conv2dWeight(inC, kh, kw, oc, ic, krow, kcol) == Conv2dWeight(inC, kh, kw, oc', ic', krow', kcol')
    ensures oc == oc' && ic == ic' && krow == krow' && kcol == kcol'
  {
    FlatChannelDigits(inC, kh, kw, ic, krow, kcol);
    FlatChannelDigits(inC, kh, kw, ic', krow', kcol');
    WeightInjective(kh * kw * inC, outC, oc, FlatChannel(inC, kw, ic, krow, kcol), oc', FlatChannel(inC, kw, ic', krow', kcol'));
    FlatChannelInjective(inC, kh, kw, ic, krow, kcol, ic', krow', kcol');
  }

  /** Bytes of a padded convolution weight buffer. */
  function ConvRoom(inC: nat, kh: nat, kw: nat, outC: nat): nat {
    MulLe(0, kh, 0, kw);
    MulLe(0, kh * kw, 0, inC);
    Room(kh * kw * inC, outC)
  }

  lemma ConvWeightInRange(inC: nat, kh: nat, kw: nat, outC: nat, oc: int, ic: int, krow: int, kcol: int)
    requires 1 <= oc <= outC && 1 <= ic <= inC && 0 <= krow < kh && 0 <= kcol < kw
    ensures 0 <= Conv2dWeight(inC, kh, kw, oc, ic, krow, kcol) < ConvRoom(inC, kh, kw, outC)
  {
    FlatChannelDigits(inC, kh, kw, ic, krow, kcol);
    WeightInRange(kh * kw * inC, outC, oc, FlatChannel(inC, kw, ic, krow, kcol));
  }
}
