/** deconv_int8_ref of src/npulib/npu_deconv.c: the loops that scatter each input pixel
    over the outputs it reaches, proved to leave the scatter-add sum at every output. */
module DeconvRef {
  import opened Sums
  import opened Layout
  import opened Scatter
  import opened Conv
  import opened Deconv

  /** Row-major input [Cin][Hin][Win] and kernel [Cin][Cout][kh][kw]. */
  function Plain(p: Params, x: seq<int>): Image { (ci, h, q) => At(x, (ci * p.inH + h) * p.inW + q) }
  function PlainKernel(p: Params, w: seq<int>): Kernel {
    (ci, co, ki, kj) => At(w, ((ci * p.outC + co) * p.kh + ki) * p.kw + kj)
  }

  function Cell(p: Params, co: int, ho: int, wo: int): int { (co * p.OutH() + ho) * p.OutW() + wo }

  lemma CellInRange(p: Params, co: int, ho: int, wo: int)
    requires 0 <= co < p.outC && 0 <= ho < p.OutH() && 0 <= wo < p.OutW()
    ensures 0 <= Cell(p, co, ho, wo) < p.outC * p.OutH() * p.OutW()
  {
    DigitsBound(p.OutH(), p.outC, co, ho);
    DigitsBound(p.OutW(), p.outC * p.OutH(), co * p.OutH() + ho, wo);
  }

  lemma SameCell(p: Params, co: int, ho: int, wo: int, co': int, ho': int, wo': int)
    requires 0 <= ho < p.OutH() && 0 <= wo < p.OutW() && 0 <= ho' < p.OutH() && 0 <= wo' < p.OutW()
    requires Cell(p, co, ho, wo) == Cell(p, co', ho', wo')
    ensures co == co' && ho == ho' && wo == wo'
  {
    Digits(p.OutW(), co * p.OutH() + ho, wo, co' * p.OutH() + ho', wo');
    Digits(p.OutH(), co, ho, co', ho');
  }

  ghost predicate Sized(p: Params, weights: nat) { weights == p.inC * p.outC * p.kh * p.kw }

  ghost predicate Inside(p: Params, co: int, ho: int, wo: int) {
    0 <= co < p.outC && 0 <= ho < p.OutH() && 0 <= wo < p.OutW()
  }

  /** The flat output buffer holds image v. */
  ghost predicate Shows(p: Params, s: seq<int>, v: Image) {
    && p.OutH() > 0 && p.OutW() > 0 && |s| == p.outC * p.OutH() * p.OutW()
    && forall co, ho, wo :: Inside(p, co, ho, wo) ==> 0 <= Cell(p, co, ho, wo) < |s| && s[Cell(p, co, ho, wo)] == v(co, ho, wo)
  }

  lemma ShowsCong(p: Params, s: seq<int>, v: Image, v': Image)
    requires Shows(p, s, v) && forall co, ho, wo :: Inside(p, co, ho, wo) ==> v(co, ho, wo) == v'(co, ho, wo)
    ensures Shows(p, s, v')
  {
  }

  function Plus(v: Image, d: Image): Image { (co, ho, wo) => v(co, ho, wo) + d(co, ho, wo) }

  function Spike(co: int, ho: int, wo: int, d: int): Image {
    (c, h, q) => if c == co && h == ho && q == wo then d else 0
  }

  lemma ShowsSpike(p: Params, s: seq<int>, v: Image, co: int, ho: int, wo: int, d: int)
    requires Shows(p, s, v) && Inside(p, co, ho, wo)
    ensures Shows(p, s[Cell(p, co, ho, wo) := s[Cell(p, co, ho, wo)] + d], Plus(v, Spike(co, ho, wo, d)))
  {
    forall c, h, q | Inside(p, c, h, q) && Cell(p, c, h, q) == Cell(p, co, ho, wo) ensures c == co && h == ho && q == wo {
      SameCell(p, c, h, q, co, ho, wo);
    }
  }

  /** What kernel elements (ki, 0) .. (ki, n) carry from an input pixel of value x. */
  function RowAdds(p: Params, w: Kernel, x: int, ci: int, hi: int, wi: int, co: int, ki: int, n: int): Image {
    (c, h, q) =>
      if c == co && h == hi * p.strideH - p.padTop + ki && 0 <= q - (wi * p.strideW - p.padLeft) < n
      then x * w(ci, co, ki, q - (wi * p.strideW - p.padLeft)) else 0
  }

  /** One trip of the innermost loop, on the buffer as a value. */
  function KernelStep(p: Params, w: seq<int>, s: seq<int>, x: int, ci: int, co: int, ki: int, kj: int, ho: int, wo: int): seq<int>
    requires Sized(p, |w|) && 0 <= ci < p.inC && 0 <= co < p.outC && 0 <= ki < p.kh && 0 <= kj < p.kw
    requires 0 <= Cell(p, co, ho, wo) < |s|
  {
    KernelIndex(p, ci, co, ki, kj);
    s[Cell(p, co, ho, wo) := s[Cell(p, co, ho, wo)] + x * w[((ci * p.outC + co) * p.kh + ki) * p.kw + kj]]
  }

  lemma KernelIndex(p: Params, ci: int, co: int, ki: int, kj: int)
    requires 0 <= ci < p.inC && 0 <= co < p.outC && 0 <= ki < p.kh && 0 <= kj < p.kw
    ensures 0 <= ((ci * p.outC + co) * p.kh + ki) * p.kw + kj < p.inC * p.outC * p.kh * p.kw
  {
    DecodeEncode(p.inC, p.outC, p.kh, p.kw, ci, co, ki, kj);
  }

  lemma OneMoreColumn(p: Params, w: seq<int>, s: seq<int>, v: Image, x: int, ci: int, hi: int, wi: int, co: int, ki: int, kj: int)
    requires Sized(p, |w|) && 0 <= ci < p.inC && 0 <= co < p.outC && 0 <= ki < p.kh && 0 <= kj < p.kw
    requires Shows(p, s, Plus(v, RowAdds(p, PlainKernel(p, w), x, ci, hi, wi, co, ki, kj)))
    ensures
      var (ho, wo) := (hi * p.strideH - p.padTop + ki, wi * p.strideW - p.padLeft + kj);
      var next := Plus(v, RowAdds(p, PlainKernel(p, w), x, ci, hi, wi, co, ki, kj + 1));
      if Inside(p, co, ho, wo) then 0 <= Cell(p, co, ho, wo) < |s| && Shows(p, KernelStep(p, w, s, x, ci, co, ki, kj, ho, wo), next)
      else Shows(p, s, next)
  {
    var (ho, wo) := (hi * p.strideH - p.padTop + ki, wi * p.strideW - p.padLeft + kj);
    var was := Plus(v, RowAdds(p, PlainKernel(p, w), x, ci, hi, wi, co, ki, kj));
    var next := Plus(v, RowAdds(p, PlainKernel(p, w), x, ci, hi, wi, co, ki, kj + 1));
    hide Shows, Inside, RowAdds, Params.OutH, Params.OutW;
    if Inside(p, co, ho, wo) {
      KernelIndex(p, ci, co, ki, kj);
      var d := x * w[((ci * p.outC + co) * p.kh + ki) * p.kw + kj];
      ColumnAdds(p, w, x, ci, hi, wi, co, ki, kj, v, d);
      CellShown(p, s, was, co, ho, wo);
      ShowsSpike(p, s, was, co, ho, wo, d);
      ShowsCong(p, KernelStep(p, w, s, x, ci, co, ki, kj, ho, wo), Plus(was, Spike(co, ho, wo, d)), next);
    } else {
      forall c, h, q | Inside(p, c, h, q) ensures was(c, h, q) == next(c, h, q) {
        ColumnElsewhere(p, w, x, ci, hi, wi, co, ki, kj, v, c, h, q);
      }
      ShowsCong(p, s, was, next);
    }
  }

  lemma CellShown(p: Params, s: seq<int>, v: Image, co: int, ho: int, wo: int)
    requires Shows(p, s, v) && Inside(p, co, ho, wo)
    ensures 0 <= Cell(p, co, ho, wo) < |s|
  {
  }

  /** One column more adds one product at one place. */
  lemma ColumnAdds(p: Params, w: seq<int>, x: int, ci: int, hi: int, wi: int, co: int, ki: int, kj: int, v: Image, d: int)
    requires 0 <= kj && d == x * PlainKernel(p, w)(ci, co, ki, kj)
    ensures
      var (ho, wo) := (hi * p.strideH - p.padTop + ki, wi * p.strideW - p.padLeft + kj);
      var was := Plus(v, RowAdds(p, PlainKernel(p, w), x, ci, hi, wi, co, ki, kj));
      var next := Plus(v, RowAdds(p, PlainKernel(p, w), x, ci, hi, wi, co, ki, kj + 1));
      forall c, h, q :: Plus(was, Spike(co, ho, wo, d))(c, h, q) == next(c, h, q)
  {
    hide PlainKernel;
  }

  lemma ColumnElsewhere(p: Params, w: seq<int>, x: int, ci: int, hi: int, wi: int, co: int, ki: int, kj: int, v: Image, c: int, h: int, q: int)
    requires 0 <= kj && !(c == co && h == hi * p.strideH - p.padTop + ki && q == wi * p.strideW - p.padLeft + kj)
    ensures Plus(v, RowAdds(p, PlainKernel(p, w), x, ci, hi, wi, co, ki, kj))(c, h, q)
         == Plus(v, RowAdds(p, PlainKernel(p, w), x, ci, hi, wi, co, ki, kj + 1))(c, h, q)
  {
    hide PlainKernel;
  }

  /** The innermost two loops for one kernel row. */
  method AddKernelRow(p: Params, w: seq<int>, Y: array<int>, x: int, ci: int, hi: int, wi: int, co: int, ki: int, ghost v: Image)
    requires Shows(p, Y[..], v) && 0 <= ci < p.inC && 0 <= co < p.outC && 0 <= ki < p.kh
    requires Sized(p, |w|)
    modifies Y
    ensures Shows(p, Y[..], Plus(v, RowAdds(p, PlainKernel(p, w), x, ci, hi, wi, co, ki, p.kw)))
  {
    var ho := hi * p.strideH - p.padTop + ki;
    if ho < 0 || ho >= p.OutH() {
      ShowsCong(p, Y[..], v, Plus(v, RowAdds(p, PlainKernel(p, w), x, ci, hi, wi, co, ki, p.kw)));
      return;
    }
    ShowsCong(p, Y[..], v, Plus(v, RowAdds(p, PlainKernel(p, w), x, ci, hi, wi, co, ki, 0)));
    for kj := 0 to p.kw
      invariant Shows(p, Y[..], Plus(v, RowAdds(p, PlainKernel(p, w), x, ci, hi, wi, co, ki, kj)))
    {
      var wo := wi * p.strideW - p.padLeft + kj;
      OneMoreColumn(p, w, Y[..], v, x, ci, hi, wi, co, ki, kj);
      if 0 <= wo < p.OutW() {
        ghost var s := Y[..];
        KernelIndex(p, ci, co, ki, kj);
        var cell := (co * p.OutH() + ho) * p.OutW() + wo;
        Y[cell] := Y[cell] + x * w[((ci * p.outC + co) * p.kh + ki) * p.kw + kj];
        assert Y[..] == KernelStep(p, w, s, x, ci, co, ki, kj, ho, wo);
      }
    }
  }

  /** The same for kernel rows 0 .. n. */
  function KernelAdds(p: Params, w: Kernel, x: int, ci: int, hi: int, wi: int, co: int, n: int): Image {
    (c, h, q) =>
      if c == co && 0 <= h - (hi * p.strideH - p.padTop) < n && 0 <= q - (wi * p.strideW - p.padLeft) < p.kw
      then x * w(ci, co, h - (hi * p.strideH - p.padTop), q - (wi * p.strideW - p.padLeft)) else 0
  }

  /** The same for output channels 0 .. n. */
  function ChannelAdds(p: Params, w: Kernel, x: int, ci: int, hi: int, wi: int, n: int): Image {
    (c, h, q) =>
      if c < n && 0 <= h - (hi * p.strideH - p.padTop) < p.kh && 0 <= q - (wi * p.strideW - p.padLeft) < p.kw
      then x * w(ci, c, h - (hi * p.strideH - p.padTop), q - (wi * p.strideW - p.padLeft)) else 0
  }

  lemma OneMoreRow(p: Params, s: seq<int>, v: Image, w: Kernel, x: int, ci: int, hi: int, wi: int, co: int, n: int)
    requires n >= 0 && Shows(p, s, Plus(Plus(v, KernelAdds(p, w, x, ci, hi, wi, co, n)), RowAdds(p, w, x, ci, hi, wi, co, n, p.kw)))
    ensures Shows(p, s, Plus(v, KernelAdds(p, w, x, ci, hi, wi, co, n + 1)))
  {
    ShowsCong(p, s, Plus(Plus(v, KernelAdds(p, w, x, ci, hi, wi, co, n)), RowAdds(p, w, x, ci, hi, wi, co, n, p.kw)),
              Plus(v, KernelAdds(p, w, x, ci, hi, wi, co, n + 1)));
  }

  lemma OneMoreChannel(p: Params, s: seq<int>, v: Image, w: Kernel, x: int, ci: int, hi: int, wi: int, n: int)
    requires n >= 0 && Shows(p, s, Plus(Plus(v, ChannelAdds(p, w, x, ci, hi, wi, n)), KernelAdds(p, w, x, ci, hi, wi, n, p.kh)))
    ensures Shows(p, s, Plus(v, ChannelAdds(p, w, x, ci, hi, wi, n + 1)))
  {
    ShowsCong(p, s, Plus(Plus(v, ChannelAdds(p, w, x, ci, hi, wi, n)), KernelAdds(p, w, x, ci, hi, wi, n, p.kh)),
              Plus(v, ChannelAdds(p, w, x, ci, hi, wi, n + 1)));
  }

  /** The loops over co, ki and kj for one nonzero input pixel. */
  method AddPixel(p: Params, w: seq<int>, Y: array<int>, x: int, ci: int, hi: int, wi: int, ghost v: Image)
    requires Shows(p, Y[..], v) && 0 <= ci < p.inC && Sized(p, |w|)
    modifies Y
    ensures Shows(p, Y[..], Plus(v, ChannelAdds(p, PlainKernel(p, w), x, ci, hi, wi, p.outC)))
  {
    ghost var k := PlainKernel(p, w);
    ShowsCong(p, Y[..], v, Plus(v, ChannelAdds(p, k, x, ci, hi, wi, 0)));
    for co := 0 to p.outC
      invariant Shows(p, Y[..], Plus(v, ChannelAdds(p, k, x, ci, hi, wi, co)))
    {
      ghost var u := Plus(v, ChannelAdds(p, k, x, ci, hi, wi, co));
      ShowsCong(p, Y[..], u, Plus(u, KernelAdds(p, k, x, ci, hi, wi, co, 0)));
      for ki := 0 to p.kh
        invariant Shows(p, Y[..], Plus(u, KernelAdds(p, k, x, ci, hi, wi, co, ki)))
      {
        AddKernelRow(p, w, Y, x, ci, hi, wi, co, ki, Plus(u, KernelAdds(p, k, x, ci, hi, wi, co, ki)));
        OneMoreRow(p, Y[..], u, k, x, ci, hi, wi, co, ki);
      }
      OneMoreChannel(p, Y[..], v, k, x, ci, hi, wi, co);
    }
  }

  function TapOf(p: Params, x: Image, w: Kernel, co: int, ho: int, wo: int): (int, int, int) -> int
    requires p.strideH > 0 && p.strideW > 0
  {
    Tap(RowAxis(p, ho), ColAxis(p, wo), Products(x, w, co))
  }

  /** The scatter-add sum over the input pixels that precede (ci, hi, wi). */
  function Before(p: Params, x: Image, w: Kernel, ci: nat, hi: nat, wi: nat): Image
    requires p.strideH > 0 && p.strideW > 0
  {
    (co, ho, wo) =>
      var tap := TapOf(p, x, w, co, ho, wo);
      Sum(ci, Planes(p.inH, p.inW, tap)) + Sum(hi, Lines(p.inW, tap, ci)) + Sum(wi, Cells(tap, ci, hi))
  }

  lemma PixelIsTap(p: Params, x: Image, w: Kernel, ci: int, hi: int, wi: int, co: int, ho: int, wo: int)
    requires p.strideH > 0 && p.strideW > 0 && co < p.outC
    ensures ChannelAdds(p, w, x(ci, hi, wi), ci, hi, wi, p.outC)(co, ho, wo) == TapOf(p, x, w, co, ho, wo)(ci, hi, wi)
  {
    assert ho + p.padTop - hi * p.strideH == ho - (hi * p.strideH - p.padTop);
    assert wo + p.padLeft - wi * p.strideW == wo - (wi * p.strideW - p.padLeft);
  }

  lemma NextPixel(p: Params, s: seq<int>, x: Image, w: Kernel, ci: nat, hi: nat, wi: nat, xval: int)
    requires p.strideH > 0 && p.strideW > 0 && xval == x(ci, hi, wi)
    requires Shows(p, s, Plus(Before(p, x, w, ci, hi, wi), ChannelAdds(p, w, xval, ci, hi, wi, p.outC)))
    ensures Shows(p, s, Before(p, x, w, ci, hi, wi + 1))
  {
    var was := Plus(Before(p, x, w, ci, hi, wi), ChannelAdds(p, w, xval, ci, hi, wi, p.outC));
    forall co, ho, wo | Inside(p, co, ho, wo) ensures was(co, ho, wo) == Before(p, x, w, ci, hi, wi + 1)(co, ho, wo) {
      PixelIsTap(p, x, w, ci, hi, wi, co, ho, wo);
    }
    ShowsCong(p, s, was, Before(p, x, w, ci, hi, wi + 1));
  }

  /** A zero pixel adds nothing, so the loops may skip it. */
  lemma SkipPixel(p: Params, s: seq<int>, v: Image, w: Kernel, ci: nat, hi: nat, wi: nat)
    requires Shows(p, s, v)
    ensures Shows(p, s, Plus(v, ChannelAdds(p, w, 0, ci, hi, wi, p.outC)))
  {
    ShowsCong(p, s, v, Plus(v, ChannelAdds(p, w, 0, ci, hi, wi, p.outC)));
  }

  lemma RowDone(p: Params, s: seq<int>, x: Image, w: Kernel, ci: nat, hi: nat)
    requires p.strideH > 0 && p.strideW > 0 && Shows(p, s, Before(p, x, w, ci, hi, p.inW))
    ensures Shows(p, s, Before(p, x, w, ci, hi + 1, 0))
  {
    ShowsCong(p, s, Before(p, x, w, ci, hi, p.inW), Before(p, x, w, ci, hi + 1, 0));
  }

  lemma ChannelDone(p: Params, s: seq<int>, x: Image, w: Kernel, ci: nat)
    requires p.strideH > 0 && p.strideW > 0 && Shows(p, s, Before(p, x, w, ci, p.inH, 0))
    ensures Shows(p, s, Before(p, x, w, ci + 1, 0, 0))
  {
    ShowsCong(p, s, Before(p, x, w, ci, p.inH, 0), Before(p, x, w, ci + 1, 0, 0));
  }

  lemma NothingYet(p: Params, s: seq<int>, x: Image, w: Kernel)
    requires p.strideH > 0 && p.strideW > 0 && p.OutH() > 0 && p.OutW() > 0
    requires |s| == p.outC * p.OutH() * p.OutW() && forall k :: 0 <= k < |s| ==> s[k] == 0
    ensures Shows(p, s, Before(p, x, w, 0, 0, 0))
  {
    forall co, ho, wo | Inside(p, co, ho, wo) ensures 0 <= Cell(p, co, ho, wo) < |s| { CellInRange(p, co, ho, wo); }
  }

  lemma PixelIndex(p: Params, X: seq<int>, ci: nat, hi: nat, wi: nat)
    requires |X| == p.inC * p.inH * p.inW && ci < p.inC && hi < p.inH && wi < p.inW
    ensures 0 <= (ci * p.inH + hi) * p.inW + wi < |X| && Plain(p, X)(ci, hi, wi) == X[(ci * p.inH + hi) * p.inW + wi]
  {
    DigitsBound(p.inH, p.inC, ci, hi);
    DigitsBound(p.inW, p.inC * p.inH, ci * p.inH + hi, wi);
  }

  /** The body of the three outer loops. */
  method ScatterPixel(p: Params, X: seq<int>, W: seq<int>, Y: array<int>, ci: nat, hi: nat, wi: nat)
    requires p.Valid() && |X| == p.inC * p.inH * p.inW && Sized(p, |W|) && ci < p.inC && hi < p.inH && wi < p.inW
    requires Shows(p, Y[..], Before(p, Plain(p, X), PlainKernel(p, W), ci, hi, wi))
    modifies Y
    ensures Shows(p, Y[..], Before(p, Plain(p, X), PlainKernel(p, W), ci, hi, wi + 1))
  {
    ghost var was := Before(p, Plain(p, X), PlainKernel(p, W), ci, hi, wi);
    PixelIndex(p, X, ci, hi, wi);
    var xval := X[(ci * p.inH + hi) * p.inW + wi];
    if xval == 0 {
      SkipPixel(p, Y[..], was, PlainKernel(p, W), ci, hi, wi);
    } else {
      AddPixel(p, W, Y, xval, ci, hi, wi, was);
    }
    NextPixel(p, Y[..], Plain(p, X), PlainKernel(p, W), ci, hi, wi, xval);
  }

  /** The loops over hi and wi. */
  method ScatterChannel(p: Params, X: seq<int>, W: seq<int>, Y: array<int>, ci: nat)
    requires p.Valid() && |X| == p.inC * p.inH * p.inW && Sized(p, |W|) && ci < p.inC
    requires Shows(p, Y[..], Before(p, Plain(p, X), PlainKernel(p, W), ci, 0, 0))
    modifies Y
    ensures Shows(p, Y[..], Before(p, Plain(p, X), PlainKernel(p, W), ci + 1, 0, 0))
  {
    hide Shows, Before, Plain, PlainKernel, Sized;
    for hi := 0 to p.inH
      invariant Shows(p, Y[..], Before(p, Plain(p, X), PlainKernel(p, W), ci, hi, 0))
    {
      for wi := 0 to p.inW
        invariant Shows(p, Y[..], Before(p, Plain(p, X), PlainKernel(p, W), ci, hi, wi))
      {
        ScatterPixel(p, X, W, Y, ci, hi, wi);
      }
      RowDone(p, Y[..], Plain(p, X), PlainKernel(p, W), ci, hi);
    }
    ChannelDone(p, Y[..], Plain(p, X), PlainKernel(p, W), ci);
  }

  method Clear(Y: array<int>)
    modifies Y
    ensures forall k :: 0 <= k < Y.Length ==> Y[k] == 0
  {
    for i := 0 to Y.Length
      invariant forall k :: 0 <= k < i ==> Y[k] == 0
    {
      Y[i] := 0;
    }
  }

  /** The transposed convolution as an image. */
  function ScatteredImage(p: Params, x: Image, w: Kernel): Image
    requires p.strideH > 0 && p.strideW > 0
  {
    (co, ho, wo) => Scattered(p, x, w, co, ho, wo)
  }

  lemma AllDone(p: Params, s: seq<int>, x: Image, w: Kernel)
    requires p.strideH > 0 && p.strideW > 0 && Shows(p, s, Before(p, x, w, p.inC, 0, 0))
    ensures Shows(p, s, ScatteredImage(p, x, w))
  {
    ShowsCong(p, s, Before(p, x, w, p.inC, 0, 0), ScatteredImage(p, x, w));
  }

  /** deconv_int8_ref */
  method DeconvInt8Ref(p: Params, X: seq<int>, W: seq<int>, Y: array<int>)
    requires p.Valid() && p.OutH() > 0 && p.OutW() > 0 && Y.Length == p.outC * p.OutH() * p.OutW()
    requires |X| == p.inC * p.inH * p.inW && |W| == p.inC * p.outC * p.kh * p.kw
    modifies Y
    ensures Shows(p, Y[..], ScatteredImage(p, Plain(p, X), PlainKernel(p, W)))
  {
    Clear(Y);
    NothingYet(p, Y[..], Plain(p, X), PlainKernel(p, W));
    ScatterAll(p, X, W, Y);
    AllDone(p, Y[..], Plain(p, X), PlainKernel(p, W));
  }

  /** The loop over ci. */
  method ScatterAll(p: Params, X: seq<int>, W: seq<int>, Y: array<int>)
    requires p.Valid() && |X| == p.inC * p.inH * p.inW && Sized(p, |W|)
    requires Shows(p, Y[..], Before(p, Plain(p, X), PlainKernel(p, W), 0, 0, 0))
    modifies Y
    ensures Shows(p, Y[..], Before(p, Plain(p, X), PlainKernel(p, W), p.inC, 0, 0))
  {
    for ci := 0 to p.inC
      invariant Shows(p, Y[..], Before(p, Plain(p, X), PlainKernel(p, W), ci, 0, 0))
    {
      ScatterChannel(p, X, W, Y, ci);
    }
  }
}
