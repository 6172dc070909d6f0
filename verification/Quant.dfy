/** The integer arithmetic of the scaled-INT8 forward pass: square root, largest magnitude,
    requantisation, residual add (src/llm/llm_forward.c). */
module Quant {
  import opened Layout

  /** A byte read through (signed char). */
  type int8 = x: int | -128 <= x <= 127

  const TWO32: nat := 0x1_0000_0000
  const INT64: int := 0x8000_0000_0000_0000
  const TWO64: int := 0x1_0000_0000_0000_0000

  /** A scale, as the code keeps it. */
  type uint32 = x: nat | x < TWO32

  /** What a 64-bit signed operation leaves of its exact result. */
  function I64(x: int): (r: int)
    ensures -INT64 <= r < INT64
  {
    (x + INT64) % TWO64 - INT64
  }

  predicate Fits64(x: int) { -INT64 <= x < INT64 }

  /** It leaves the result itself exactly when that fits. */
  lemma I64ExactIff(x: int)
    ensures I64(x) == x <==> Fits64(x)
  {
  }

  function Abs(x: int): nat { if x < 0 then -x else x }

  /** C division: the quotient is truncated toward zero. */
  function Trunc(a: int, b: int): int
    requires b > 0
  {
    if a >= 0 then a / b else -(-a / b)
  }

  // ---------------------------------------------------------------- square root

  lemma AmGm(a: nat, b: nat, s: nat)
    requires a + b <= 2 * s
    ensures a * b <= s * s
  {
    assert a * b <= a * (2 * s - a) by { assert a * (2 * s - a - b) >= 0; }
    assert s * s - a * (2 * s - a) == (s - a) * (s - a);
    assert (s - a) * (s - a) >= 0;
  }

  /** The largest s with s * s <= x. */
  ghost function Root(x: nat): (s: nat)
    ensures s * s <= x < (s + 1) * (s + 1)
  {
    if x == 0 then 0
    else
      var s := Root(x - 1);
      assert (s + 2) * (s + 2) > (s + 1) * (s + 1);
      if (s + 1) * (s + 1) <= x then s + 1 else s
  }

  lemma QuotientAtMost(x: nat, r: nat, q: nat, s: nat)
    requires q * r <= x < (s + 1) * (s + 1) && r >= s + 1
    ensures q <= s
  {
    if q >= s + 1 { MulLe(s + 1, q, s + 1, r); }
  }

  lemma NewtonAbove(x: nat, r: nat, q: nat, s: nat)
    requires x < (q + 1) * r && s * s <= x
    ensures r + q >= 2 * s
  {
    if (q + 1) + r <= 2 * s { AmGm(q + 1, r, s); }
  }

  function Pow2(n: nat): nat { if n == 0 then 1 else 2 * Pow2(n - 1) }

  lemma Halved(d: nat, e: nat, p: nat, x: nat)
    requires 2 * e <= d && d * p <= x
    ensures e * (2 * p) <= x
  {
    MulLe(2 * e, d, p, p);
    assert e * (2 * p) == 2 * e * p;
  }

  lemma Vanishes(d: nat, p: nat, x: nat)
    requires d * p <= x < p
    ensures d == 0
  {
    if d >= 1 { MulLe(1, d, p, p); }
  }

  lemma NewtonStep(x: nat, r: nat, s: nat)
    requires 0 < r && s <= r && s * s <= x < (s + 1) * (s + 1) && s > 0
    ensures s <= (r + x / r) / 2
    ensures r > s ==> 2 * ((r + x / r) / 2 - s) <= r - s
  {
    DivMod(x, r);
    NewtonBounds(x, r, x / r, s);
  }

  lemma NewtonBounds(x: nat, r: nat, q: nat, s: nat)
    requires 0 < r && s <= r && s * s <= x < (s + 1) * (s + 1) && q * r <= x < q * r + r
    ensures 2 * s <= r + q && (r > s ==> q <= s)
  {
    assert (q + 1) * r == q * r + r;
    NewtonAbove(x, r, q, s);
    if r > s { QuotientAtMost(x, r, q, s); }
  }

  lemma RootOfSmall(x: nat)
    ensures x <= 1 ==> Root(x) == x
    ensures x > 1 ==> 0 < Root(x) < x
  {
    var s := Root(x);
    if s >= 2 { MulLe(2, s, 2, s); MulLe(2, s, s, s); }
    if s == 0 { assert (s + 1) * (s + 1) == 1; }
  }

  /** r is above the root of x by at most x / 2^n. */
  ghost predicate Near(x: nat, r: nat, n: nat) { Root(x) <= r && (r - Root(x)) * Pow2(n) <= x }

  lemma NearAtRoot(x: nat, r: nat, n: nat)
    requires r == Root(x)
    ensures Near(x, r, n)
  {
    assert (r - Root(x)) * Pow2(n) == 0;
  }

  lemma NearStep(x: nat, r: nat, n: nat)
    requires x > 1 && 0 < r && Near(x, r, n)
    ensures (r + x / r) / 2 >= r ==> r == Root(x)
    ensures (r + x / r) / 2 < r ==> (r + x / r) / 2 > 0 && Near(x, (r + x / r) / 2, n + 1)
  {
    var s := Root(x);
    RootOfSmall(x);
    NewtonStep(x, r, s);
    if (r + x / r) / 2 < r { Halved(r - s, (r + x / r) / 2 - s, Pow2(n), x); }
  }

  /** isqrt_u32.  Newton's iteration from above, at most 20 steps: it never falls below the
      root and halves the distance to it at every step, so it is exact below 2^20. */
  method Isqrt(x: nat) returns (r: nat)
    ensures Near(x, r, 20)
    ensures x < Pow2(20) ==> r == Root(x)
  {
    RootOfSmall(x);
    if x <= 1 {
      NearAtRoot(x, x, 20);
      return x;
    }
    r := x;
    for i := 0 to 20
      invariant 0 < r && Near(x, r, i)
    {
      NearStep(x, r, i);
      var nr := (r + x / r) / 2;
      if nr >= r {
        NearAtRoot(x, r, 20);
        return;
      }
      r := nr;
    }
    if x < Pow2(20) { Vanishes(r - Root(x), Pow2(20), x); }
  }

  // ---------------------------------------------------------------- requantisation

  /** The largest magnitude of an array, never below 1. */
  function MaxAbs(v: seq<int>): (m: nat)
    ensures m >= 1 && forall i :: 0 <= i < |v| ==> Abs(v[i]) <= m
    ensures m == 1 || exists i :: 0 <= i < |v| && Abs(v[i]) == m
  {
    if v == [] then 1
    else
      var m := MaxAbs(v[..|v| - 1]);
      assert forall i :: 0 <= i < |v| - 1 ==> v[..|v| - 1][i] == v[i];
      if Abs(v[|v| - 1]) > m then Abs(v[|v| - 1]) else m
  }

  /** absmax64 */
  method AbsMax64(v: array<int>) returns (mx: nat)
    ensures mx == MaxAbs(v[..])
  {
    mx := 1;
    for i := 0 to v.Length
      invariant mx == MaxAbs(v[..i])
    {
      assert v[..i + 1][..i] == v[..i];
      var a := if v[i] < 0 then -v[i] else v[i];
      if a > mx {
        mx := a;
      }
    }
    assert v[..v.Length] == v[..];
  }

  function Clamp(q: int): int8 { if q > 127 then 127 else if q < -128 then -128 else q }

  /** The quotient of requant_i8 before it is clamped. */
  function Quotient(v: int, mx: int): int
    requires mx > 0
  {
    if v >= 0 then Trunc(v * 127 * 2 + mx, mx * 2) else Trunc(v * 127 * 2 - mx, mx * 2)
  }

  function Requant(v: int, mx: int): int8
    requires mx > 0
  {
    Clamp(Quotient(v, mx))
  }

  lemma QuotientBounds(v: int, mx: int)
    requires mx > 0
    ensures Quotient(-v, mx) == -Quotient(v, mx)
    ensures v >= 0 ==> Quotient(v, mx) >= 0 && -mx <= 254 * v - 2 * mx * Quotient(v, mx) < mx
  {
    var a := Abs(v);
    var num := a * 127 * 2 + mx;
    var q := num / (mx * 2);
    assert num == q * (mx * 2) + num % (mx * 2);
    assert q * (mx * 2) == 2 * mx * q;
    if v < 0 {
      assert -v * 127 * 2 + mx == num && v * 127 * 2 - mx == -num;
    } else if v > 0 {
      assert -v * 127 * 2 - mx == -num;
    }
  }

  lemma CoarseMonotone(a: int, b: int, p: int, q: int, mx: int)
    requires mx > 0 && a <= b && 254 * a - 2 * mx * p >= -mx && 254 * b - 2 * mx * q < mx
    ensures p <= q
  {
    Step(q, p, 2 * mx);
    assert p * (2 * mx) == 2 * mx * p && q * (2 * mx) == 2 * mx * q;
  }

  /** Requantisation picks the nearest multiple of mx / 127, halves going away from zero,
      and keeps the order. */
  lemma QuotientMonotone(a: int, b: int, mx: int)
    requires mx > 0 && a <= b
    ensures Quotient(a, mx) <= Quotient(b, mx)
  {
    QuotientBounds(a, mx);
    QuotientBounds(-a, mx);
    QuotientBounds(b, mx);
    QuotientBounds(-b, mx);
    if a >= 0 {
      CoarseMonotone(a, b, Quotient(a, mx), Quotient(b, mx), mx);
    } else if b <= 0 {
      CoarseMonotone(-b, -a, Quotient(-b, mx), Quotient(-a, mx), mx);
    }
  }

  lemma QuotientAtMax(mx: int)
    requires mx > 0
    ensures Quotient(mx, mx) == 127 && Quotient(-mx, mx) == -127
  {
    QuotientBounds(mx, mx);
    var q := Quotient(mx, mx);
    Step(127, q, 2 * mx);
    Step(q, 127, 2 * mx);
    assert q * (2 * mx) == 2 * mx * q;
  }

  /** What requant_i8 does to values no larger than mx: nearest, half away from zero,
      order-preserving, the clamps never acting, the extremes going to +-127. */
  lemma RequantNearest(v: int, mx: int)
    requires mx > 0 && Abs(v) <= mx
    ensures Requant(v, mx) == Quotient(v, mx) && -127 <= Requant(v, mx) <= 127
    ensures v >= 0 ==> -mx <= 254 * v - 2 * mx * Requant(v, mx) < mx
    ensures v <= 0 ==> -mx < 254 * v - 2 * mx * Requant(v, mx) <= mx
    ensures v == mx ==> Requant(v, mx) == 127
    ensures v == -mx ==> Requant(v, mx) == -127
  {
    hide Quotient;
    QuotientMonotone(-mx, v, mx);
    QuotientMonotone(v, mx, mx);
    QuotientAtMax(mx);
    QuotientBounds(v, mx);
    QuotientBounds(-v, mx);
    TimesNegated(2 * mx, Quotient(v, mx));
  }

  lemma TimesNegated(a: int, b: int)
    ensures a * -b == -(a * b)
  {
  }

  lemma RequantMonotone(a: int, b: int, mx: int)
    requires mx > 0 && a <= b
    ensures Requant(a, mx) <= Requant(b, mx)
  {
    QuotientMonotone(a, b, mx);
  }

  function RequantAll(v: seq<int>, mx: int): (r: seq<int8>)
    requires mx > 0
    ensures |r| == |v|
  {
    seq(|v|, i requires 0 <= i < |v| => Requant(v[i], mx))
  }

  /** requant_i8 */
  method RequantI8(v: array<int>, mx: int, out: array<int8>)
    requires mx > 0 && out.Length >= v.Length
    modifies out
    ensures out[..v.Length] == RequantAll(v[..], mx)
    ensures out[v.Length..] == old(out[v.Length..])
  {
    for i := 0 to v.Length
      invariant forall j :: 0 <= j < i ==> out[j] == Requant(v[j], mx)
      invariant forall j :: v.Length <= j < out.Length ==> out[j] == old(out[j])
    {
      var num := v[i] * 127 * 2;
      var q := if v[i] >= 0 then Trunc(num + mx, mx * 2) else Trunc(num - mx, mx * 2);
      if q > 127 {
        q := 127;
      }
      if q < -128 {
        q := -128;
      }
      out[i] := q;
    }
  }

  /** The elements of largest magnitude become +-127. */
  lemma ExtremesReach127(v: seq<int>, i: nat)
    requires i < |v| && Abs(v[i]) == MaxAbs(v)
    ensures Abs(RequantAll(v, MaxAbs(v))[i]) == 127
  {
    RequantNearest(v[i], MaxAbs(v));
  }

  // ---------------------------------------------------------------- scales

  /** (uint32_t)(mx / 127), at least 1. */
  function OutScale(mx: nat): uint32 {
    var s := mx / 127 % TWO32;
    if s < 1 then 1 else s
  }

  /** Int8 value q with scale s stands for v to within mx / 254 + 127. */
  ghost predicate Stands(q: int, s: int, v: int, mx: int) { 254 * Abs(q * s - v) <= mx + 254 * 127 }

  lemma StandsWhenScaleFits(v: int, mx: nat)
    requires mx > 0 && Abs(v) <= mx && mx < 127 * TWO32
    ensures Stands(Requant(v, mx), OutScale(mx), v, mx)
  {
    RequantNearest(v, mx);
    ScaleClose(mx);
    ErrorsAdd(Requant(v, mx), OutScale(mx), v, mx, 127 * OutScale(mx) - mx);
  }

  lemma ScaleClose(mx: nat)
    requires 0 < mx < 127 * TWO32
    ensures -126 <= 127 * OutScale(mx) - mx <= 126
  {
  }

  lemma ErrorsAdd(q: int, s: int, v: int, mx: int, d: int)
    requires -127 <= q <= 127 && -126 <= d <= 126 && d == 127 * s - mx && -mx <= 254 * v - 2 * mx * q <= mx
    ensures Stands(q, s, v, mx)
  {
    ProductBound(q, d);
    assert 2 * q * d == 254 * (q * s) - 2 * mx * q by {
      assert q * d == q * (127 * s) - q * mx;
      assert q * (127 * s) == 127 * (q * s);
    }
  }

  lemma ProductBound(q: int, d: int)
    requires -127 <= q <= 127 && -126 <= d <= 126
    ensures -254 * 126 <= 2 * q * d <= 254 * 126
  {
    MulLe(Abs(q), 127, Abs(d), 126);
    assert Abs(q) * Abs(d) == Abs(q * d);
  }

  lemma MaxDoesNotStand(v: int, mx: nat)
    requires mx >= 127 * TWO32 && Abs(v) == mx
    ensures !Stands(Requant(v, mx), OutScale(mx), v, mx)
  {
    RequantNearest(v, mx);
    var s := mx / 127;
    var k := s / TWO32;
    assert s == k * TWO32 + s % TWO32 && k >= 1;
    assert mx - 127 * OutScale(mx) >= 127 * k * TWO32 - 127;
    assert mx < 127 * (k + 1) * TWO32;
    if v < 0 { assert Abs(-127 * OutScale(mx) + mx) == mx - 127 * OutScale(mx); }
  }

  /** Every requantised element stands for its value exactly when the largest magnitude is
      below 127 * 2^32, that is when the scale fits its 32 bits. */
  lemma AllStandIff(v: seq<int>)
    ensures (forall i :: 0 <= i < |v| ==> Stands(RequantAll(v, MaxAbs(v))[i], OutScale(MaxAbs(v)), v[i], MaxAbs(v)))
       <==> MaxAbs(v) < 127 * TWO32
  {
    var mx := MaxAbs(v);
    if mx < 127 * TWO32 {
      forall i | 0 <= i < |v| ensures Stands(RequantAll(v, mx)[i], OutScale(mx), v[i], mx) { StandsWhenScaleFits(v[i], mx); }
    } else {
      var i :| 0 <= i < |v| && Abs(v[i]) == mx;
      MaxDoesNotStand(v[i], mx);
    }
  }

  // ---------------------------------------------------------------- residual add

  /** The exact sum of two scaled tensors. */
  function ScaledSum(a: seq<int8>, aS: uint32, b: seq<int8>, bS: uint32): (r: seq<int>)
    requires |a| <= |b|
    ensures |r| == |a|
  {
    seq(|a|, i requires 0 <= i < |a| => a[i] * aS + b[i] * bS)
  }

  /** add_res.  `a` may be the output itself. */
  method AddRes(out: array<int8>, a: array<int8>, aS: uint32, b: array<int8>, bS: uint32) returns (outS: uint32)
    requires out.Length == a.Length <= b.Length
    modifies out
    ensures
      var xr := ScaledSum(old(a[..]), aS, old(b[..]), bS);
      out[..] == RequantAll(xr, MaxAbs(xr)) && outS == OutScale(MaxAbs(xr))
  {
    var xr := new int[a.Length];
    for i := 0 to a.Length
      invariant forall j :: 0 <= j < i ==> xr[j] == a[j] * aS + b[j] * bS
      invariant a[..] == old(a[..]) && b[..] == old(b[..])
    {
      xr[i] := a[i] * aS + b[i] * bS;
    }
    assert xr[..] == ScaledSum(a[..], aS, b[..], bS);
    var mx := AbsMax64(xr);
    RequantI8(xr, mx, out);
    assert out[..xr.Length] == out[..];
    outS := mx / 127 % TWO32;
    if outS < 1 {
      outS := 1;
    }
  }

  /** Two largest bytes at the largest scale: the sum becomes 127 at a scale of 4294967294,
      about half of it. */
  lemma LargestSumFails()
    ensures
      var xr := ScaledSum([127], TWO32 - 1, [127], TWO32 - 1);
      && MaxAbs(xr) == xr[0] == 254 * (TWO32 - 1) && OutScale(MaxAbs(xr)) == TWO32 - 2
      && RequantAll(xr, MaxAbs(xr)) == [127] && !Stands(127, TWO32 - 2, xr[0], MaxAbs(xr))
  {
    var xr := ScaledSum([127], TWO32 - 1, [127], TWO32 - 1);
    assert xr == [254 * (TWO32 - 1)] && xr[..0] == [];
    RequantNearest(xr[0], xr[0]);
    MaxDoesNotStand(xr[0], xr[0]);
  }

  /** No intermediate of the residual add leaves 64 bits, for any int8 values and any
      32-bit scales. */
  lemma AddResFits64(x: int8, aS: uint32, y: int8, bS: uint32, mx: nat)
    requires mx <= 256 * TWO32
    ensures Abs(x * aS + y * bS) <= 256 * TWO32
    ensures Abs((x * aS + y * bS) * 127 * 2) + mx < INT64 && mx * 2 < INT64
  {
    ByteTimesScale(x, aS);
    ByteTimesScale(y, bS);
    SumFits64(x * aS, y * bS, mx);
  }

  lemma ByteTimesScale(x: int, s: nat)
    requires -128 <= x <= 127 && s < TWO32
    ensures Abs(x * s) <= 128 * TWO32
  {
    if x >= 0 {
      MulLe(0, x, 0, s);
      MulLe(x, 128, s, TWO32);
    } else {
      MulLe(0, -x, 0, s);
      MulLe(-x, 128, s, TWO32);
      assert -x * s == -(x * s);
    }
  }

  lemma SumFits64(p: int, q: int, mx: nat)
    requires Abs(p) <= 128 * TWO32 && Abs(q) <= 128 * TWO32 && mx <= 256 * TWO32
    ensures Abs(p + q) <= 256 * TWO32 && Abs((p + q) * 127 * 2) + mx < INT64 && mx * 2 < INT64
  {
  }
}
