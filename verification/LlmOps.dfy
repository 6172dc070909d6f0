/** The operators of the forward pass on their buffers (src/llm/llm_forward.c),
    each proved to leave what the specification computes. */
module LlmOps {
  import opened Layout
  import opened Quant
  import opened Attention
  import opened LlmSpec
  import Sigmoid

  lemma {:induction false} SumSquaresBound(x: seq<int8>)
    ensures SumSquares(x) <= 16384 * |x|
  {
    if x != [] {
      SumSquaresBound(x[..|x| - 1]);
      SquareBound(x[|x| - 1]);
    }
  }

  lemma SquareBound(a: int8)
    ensures 0 <= Times(a, a) <= 16384
  {
    MulLe(Abs(a), 128, Abs(a), 128);
    assert Times(a, a) == Abs(a) * Abs(a);
  }

  /** Mean squares stay below 2^20, where the square root is exact. */
  lemma MeanSmall(x: seq<int8>)
    requires |x| > 0
    ensures SumSquares(x) / |x| <= 16384 < Pow2(20)
  {
    SumSquaresBound(x);
    DivMod(SumSquares(x), |x|);
    Step(16384, SumSquares(x) / |x|, |x|);
    Pow2Of20();
  }

  lemma Pow2Of20()
    ensures Pow2(20) == 0x10_0000
  {
    assert Pow2(5) == 32;
    assert Pow2(10) == 1024;
    assert Pow2(15) == 32768;
  }

  /** The root-mean-square loop of rms_norm.  Its guard against a zero root is dead: the
      root of a positive mean is positive. */
  method RootMeanSquare(x: array<int8>) returns (rms: nat)
    requires x.Length > 0
    ensures rms == Rms(x[..])
  {
    hide Times, Root, Pow2;
    var sumSq := 0;
    for i := 0 to x.Length
      invariant sumSq == SumSquares(x[..i])
    {
      assert x[..i + 1][..i] == x[..i];
      SquareBound(x[i]);
      sumSq := sumSq + Times(x[i], x[i]);
    }
    assert x[..x.Length] == x[..];
    var ms := sumSq / x.Length;
    MeanSmall(x[..]);
    if ms == 0 {
      ms := 1;
    }
    RootOfSmall(ms);
    rms := Isqrt(ms);
  }

  /** The common tail of rms_norm, the attention output and the activation: requantise an
      exact array and return its scale. */
  method Rescale(v: array<int>, out: array<int8>) returns (s: uint32)
    requires out.Length == v.Length
    modifies out
    ensures Scaled(out[..], s) == Rescaled(v[..])
  {
    var mx := AbsMax64(v);
    RequantI8(v, mx, out);
    assert out[..v.Length] == out[..];
    s := mx / 127 % TWO32;
    if s < 1 {
      s := 1;
    }
  }

  /** rms_norm; y may be x. */
  method RmsNormInto(y: array<int8>, x: array<int8>, w: Weight) returns (s: uint32)
    requires 0 < x.Length == y.Length <= |w.data|
    modifies y
    ensures Scaled(y[..], s) == RmsNorm(old(x[..]), w)
  {
    var rms := RootMeanSquare(x);
    var rq := new int[x.Length];
    for i := 0 to x.Length
      invariant x[..] == old(x[..])
      invariant forall j :: 0 <= j < i ==> rq[j] == Trunc(Times(x[j], w.data[j]) * w.scale, rms)
    {
      rq[i] := Trunc(Times(x[i], w.data[i]) * w.scale, rms);
    }
    assert rq[..] == Normed(x[..], w);
    s := Rescale(rq, y);
  }

  method DotProduct(a: seq<int8>, b: seq<int8>) returns (d: int)
    requires |a| == |b|
    ensures d == Dot(a, b)
  {
    d := 0;
    for k := 0 to |a|
      invariant d == Dot(a[..k], b[..k])
    {
      assert a[..k + 1][..k] == a[..k] && b[..k + 1][..k] == b[..k];
      d := d + Times(a[k], b[k]);
    }
    assert a[..|a|] == a && b[..|b|] == b;
  }

  /** Writing the next element of a known sequence. */
  method Extend(a: array<int>, i: nat, v: int, ghost spec: seq<int>)
    requires i < a.Length == |spec| && v == spec[i] && a[..i] == spec[..i]
    modifies a
    ensures a[..i + 1] == spec[..i + 1]
  {
    a[i] := v;
    assert a[..i + 1] == a[..i] + [a[i]] && spec[..i + 1] == spec[..i] + [spec[i]];
  }

  method Activate(g: int8, gS: uint32, u: int8, uS: uint32) returns (act: int)
    ensures act == Activated(g, gS, u, uS)
  {
    var gReal := Times(g, gS);
    var idx := gReal * 32 / 0x10_0000;
    if idx > 127 {
      idx := 127;
    }
    if idx < -128 {
      idx := -128;
    }
    var sig := Sigmoid.SigmoidLut(if idx < 0 then idx + 256 else idx) + 128;
    var silu := Trunc(gReal * sig, 255);
    act := I64(Times(silu, Times(u, uS))) / 0x10_0000;
  }

  /** The activation loop. */
  method SwiGluInto(gate: array<int8>, gS: uint32, up: array<int8>, uS: uint32) returns (s: uint32)
    requires gate.Length == up.Length
    modifies gate
    ensures Scaled(gate[..], s) == Rescaled(SwiGlu(Scaled(old(gate[..]), gS), Scaled(old(up[..]), uS)))
  {
    hide Activated;
    var act := new int[gate.Length];
    for i := 0 to gate.Length
      invariant gate[..] == old(gate[..]) && up[..] == old(up[..])
      invariant forall j :: 0 <= j < i ==> act[j] == Activated(gate[j], gS, up[j], uS)
    {
      act[i] := Activate(gate[i], gS, up[i], uS);
    }
    assert act[..] == SwiGlu(Scaled(gate[..], gS), Scaled(up[..], uS));
    s := Rescale(act, gate);
  }
}
