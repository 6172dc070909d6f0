/** llm_npu_matmul (src/llm/llm_matmul.c), processor branch: rows of dot products,
    requantised row by row with the largest magnitude seen so far, and one scale. */
module LlmMatmul {
  import opened Layout
  import opened Scatter
  import opened Quant
  import opened LlmSpec
  import opened LlmOps

  // ---------------------------------------------------------------- the result

  function Larger(a: nat, b: nat): nat { if b > a then b else a }

  /** The largest magnitude in any row, at least 1. */
  function Peak(accs: seq<seq<int>>): (m: nat)
    ensures m >= 1 && forall r :: 0 <= r < |accs| ==> MaxAbs(accs[r]) <= m
  {
    if accs == [] then 1
    else
      var m := Peak(accs[..|accs| - 1]);
      assert forall r :: 0 <= r < |accs| - 1 ==> accs[..|accs| - 1][r] == accs[r];
      Larger(m, MaxAbs(accs[|accs| - 1]))
  }

  /** The accumulators one row behind the other. */
  function Flat(accs: seq<seq<int>>): seq<int> { if accs == [] then [] else Flat(accs[..|accs| - 1]) + accs[|accs| - 1] }

  /** The outputs: every row is requantised with the peak of the rows up to it. */
  function Outputs(accs: seq<seq<int>>): seq<int8> {
    if accs == [] then [] else Outputs(accs[..|accs| - 1]) + RequantAll(accs[|accs| - 1], Peak(accs))
  }

  function InputRow(x: seq<int8>, m: nat, k: nat, r: nat): (row: seq<int8>)
    requires |x| == m * k && r < m
    ensures |row| == k
  {
    HeadInside(r, m, k);
    Slice(x, r * k, k)
  }

  /** The accumulators of m rows of input. */
  function Products(x: seq<int8>, m: nat, w: Weight): (accs: seq<seq<int>>)
    requires w.Shaped(w.rows, w.cols) && |x| == m * w.cols
    ensures |accs| == m && forall r :: 0 <= r < m ==> |accs[r]| == w.rows
  {
    seq(m, r requires 0 <= r < m => Accumulate(InputRow(x, m, w.cols, r), w))
  }

  lemma OneMoreRow(accs: seq<seq<int>>, r: nat)
    requires r < |accs|
    ensures Flat(accs[..r + 1]) == Flat(accs[..r]) + accs[r]
    ensures Peak(accs[..r + 1]) == Larger(Peak(accs[..r]), MaxAbs(accs[r]))
    ensures Outputs(accs[..r + 1]) == Outputs(accs[..r]) + RequantAll(accs[r], Peak(accs[..r + 1]))
  {
    assert accs[..r + 1][..r] == accs[..r] && accs[..r + 1][r] == accs[r];
  }

  /** One row is the matrix-vector product of the forward pass. */
  lemma SingleRow(x: seq<int8>, w: Weight)
    requires w.Shaped(w.rows, w.cols) && |x| == w.cols
    ensures
      var acc := Accumulate(x, w);
      && |x| == 1 * w.cols && Products(x, 1, w) == [acc]
      && Peak([acc]) == MaxAbs(acc) && Flat([acc]) == acc && Outputs([acc]) == RequantAll(acc, MaxAbs(acc))
  {
    var acc := Accumulate(x, w);
    assert InputRow(x, 1, w.cols, 0) == x;
    assert [acc][..0] == [];
    assert Products(x, 1, w)[0] == acc;
  }

  // ---------------------------------------------------------------- the loops

  /** A further row behind the ones already written. */
  method RequantRow(acc: array<int>, maxabs: nat, output: array<int8>, at: nat)
    requires maxabs > 0 && at + acc.Length <= output.Length
    modifies output
    ensures output[..at + acc.Length] == old(output[..at]) + RequantAll(acc[..], maxabs)
  {
    ghost var was, spec := output[..at], RequantAll(acc[..], maxabs);
    for n := 0 to acc.Length
      invariant output[..at + n] == was + spec[..n]
    {
      var num := acc[n] * 127 * 2;
      var q := if acc[n] >= 0 then Trunc(num + maxabs, maxabs * 2) else Trunc(num - maxabs, maxabs * 2);
      if q > 127 {
        q := 127;
      }
      if q < -128 {
        q := -128;
      }
      output[at + n] := q;
      assert q == spec[n] && spec[..n + 1] == spec[..n] + [spec[n]];
      assert output[..at + n + 1] == output[..at + n] + [q];
    }
    assert spec[..acc.Length] == spec;
  }

  lemma MaxAbsNone(s: seq<int>)
    ensures MaxAbs(s[..0]) == 1
  {
  }

  lemma MaxAbsMore(s: seq<int>, n: nat)
    requires n < |s|
    ensures MaxAbs(s[..n + 1]) == Larger(MaxAbs(s[..n]), Abs(s[n]))
  {
    assert s[..n + 1][..n] == s[..n];
  }

  method RowDot(input: array<int8>, from: nat, w: Weight, n: nat) returns (dot: int)
    requires w.Shaped(w.rows, w.cols) && from + w.cols <= input.Length && n < w.rows
    ensures dot == Accumulate(input[from..from + w.cols], w)[n]
  {
    dot := DotProduct(input[from..from + w.cols], WeightRow(w, n));
  }

  /** The raw accumulator, if a buffer for them is given. */
  method KeepRaw(logits32: array?<int>, i: nat, v: int, ghost was: seq<int>)
    requires logits32 != null ==> i < logits32.Length && logits32[..i] == was
    modifies logits32
    ensures logits32 != null ==> logits32[..i + 1] == was + [v]
  {
    if logits32 != null {
      logits32[i] := v;
      assert logits32[..i + 1] == logits32[..i] + [v];
    }
  }

  /** One accumulator: kept, compared with the running maximum, copied. */
  method TakeSum(acc: array<int>, n: nat, v: int, maxabs: nat, logits32: array?<int>, at: nat,
                 ghost peak: nat, ghost spec: seq<int>, ghost was: seq<int>)
    returns (maxabs': nat)
    requires n < acc.Length == |spec| && v == spec[n] && acc[..n] == spec[..n] && maxabs == Larger(peak, MaxAbs(spec[..n]))
    requires logits32 != null ==> acc != logits32 && at + n < logits32.Length && logits32[..at + n] == was + spec[..n]
    modifies acc, logits32
    ensures acc[..n + 1] == spec[..n + 1] && maxabs' == Larger(peak, MaxAbs(spec[..n + 1]))
    ensures logits32 != null ==> logits32[..at + n + 1] == was + spec[..n + 1]
  {
    hide MaxAbs;
    MaxAbsMore(spec, n);
    Extend(acc, n, v, spec);
    var a := if v < 0 then -v else v;
    maxabs' := if a > maxabs then a else maxabs;
    KeepRaw(logits32, at + n, v, was + spec[..n]);
    assert was + spec[..n + 1] == was + spec[..n] + [v];
  }

  /** The dot products of one row, the running maximum, and a copy of the accumulators behind
      those of earlier rows if a buffer for them is given. */
  method AccumulateRow(input: array<int8>, from: nat, w: Weight, peak: nat, logits32: array?<int>, at: nat)
    returns (acc: array<int>, maxabs: nat)
    requires w.Shaped(w.rows, w.cols) && from + w.cols <= input.Length
    requires logits32 != null ==> at + w.rows <= logits32.Length
    requires peak >= 1
    modifies logits32
    ensures fresh(acc) && acc[..] == Accumulate(input[from..from + w.cols], w) && maxabs == Larger(peak, MaxAbs(acc[..]))
    ensures logits32 != null ==> logits32[..at + w.rows] == old(logits32[..at]) + acc[..]
  {
    hide Accumulate, MaxAbs;
    ghost var spec := Accumulate(input[from..from + w.cols], w);
    ghost var was := if logits32 != null then logits32[..at] else [];
    MaxAbsNone(spec);
    acc := new int[w.rows];
    maxabs := peak;
    for n := 0 to w.rows
      invariant acc[..n] == spec[..n] && maxabs == Larger(peak, MaxAbs(spec[..n]))
      invariant logits32 != null ==> logits32[..at + n] == was + spec[..n]
    {
      var dot := RowDot(input, from, w, n);
      maxabs := TakeSum(acc, n, dot, maxabs, logits32, at, peak, spec, was);
    }
    assert spec[..w.rows] == spec;
  }

  /** The scale that is returned. */
  method ProductScale(maxabs: nat, w: Weight, inScale: uint32) returns (s: uint32)
    ensures s == MatScale(maxabs, w.scale, inScale)
  {
    var prod := maxabs * w.scale * inScale % 0x1_0000_0000_0000_0000 / (127 * 0x10_0000);
    if prod < 1 {
      prod := 1;
    }
    s := prod % TWO32;
  }

  /** The loop body: one more row. */
  method MatmulRow(output: array<int8>, input: array<int8>, w: Weight, logits32: array?<int>, from: nat, at: nat, peak: nat,
                   ghost accs: seq<seq<int>>, ghost row: nat)
    returns (maxabs: nat)
    requires w.Shaped(w.rows, w.cols) && from + w.cols <= input.Length && at + w.rows <= output.Length
    requires logits32 != null ==> at + w.rows <= logits32.Length
    requires row < |accs| && accs[row] == Accumulate(input[from..from + w.cols], w)
    requires peak == Peak(accs[..row]) && output[..at] == Outputs(accs[..row])
    requires logits32 != null ==> logits32[..at] == Flat(accs[..row])
    modifies output, logits32
    ensures maxabs == Peak(accs[..row + 1]) && output[..at + w.rows] == Outputs(accs[..row + 1])
    ensures logits32 != null ==> logits32[..at + w.rows] == Flat(accs[..row + 1])
  {
    hide Outputs, Peak, Flat, Accumulate, RequantAll, MaxAbs;
    OneMoreRow(accs, row);
    var acc;
    acc, maxabs := AccumulateRow(input, from, w, peak, logits32, at);
    RequantRow(acc, maxabs, output, at);
  }

  /** llm_npu_matmul on m rows of input, processor branch.  Only a single row may be
      overwritten in place. */
  method NpuMatmul(output: array<int8>, input: array<int8>, m: nat, w: Weight, inScale: uint32, logits32: array?<int>) returns (s: uint32)
    requires w.Shaped(w.rows, w.cols) && input.Length == m * w.cols && output.Length == m * w.rows
    requires logits32 != null ==> logits32.Length == m * w.rows
    requires m <= 1 || output != input
    modifies output, logits32
    ensures
      var accs := Products(old(input[..]), m, w);
      && output[..] == Outputs(accs) && s == MatScale(Peak(accs), w.scale, inScale)
      && (logits32 != null ==> logits32[..] == Flat(accs))
  {
    hide Products, Outputs, Peak, Flat, Accumulate, Before, Weight.Shaped;
    ghost var x := input[..];
    ghost var accs := Products(x, m, w);
    NoRows(accs);
    RowStarts(m, w.cols);
    RowStarts(m, w.rows);
    var maxabs, from, at: nat, row: nat := 1, 0, 0, 0;
    while row < m
      invariant row <= m && from == Before(row, w.cols) && at == Before(row, w.rows) && maxabs == Peak(accs[..row])
      invariant at <= output.Length && output[..at] == Outputs(accs[..row]) && (row < m ==> input[..] == x)
      invariant logits32 != null ==> logits32[..at] == Flat(accs[..row])
    {
      RowFits(row, m, w.cols);
      RowFits(row, m, w.rows);
      RowOfProducts(x, m, w, row);
      maxabs := MatmulRow(output, input, w, logits32, from, at, maxabs, accs, row);
      row, from, at := row + 1, from + w.cols, at + w.rows;
    }
    assert accs[..m] == accs && output[..at] == output[..];
    s := ProductScale(maxabs, w, inScale);
  }

  /** Its use in the forward pass, on one row. */
  method MultiplyRow(output: array<int8>, input: array<int8>, w: Weight, inScale: uint32, logits32: array?<int>) returns (s: uint32)
    requires w.Shaped(w.rows, w.cols) && input.Length == w.cols && output.Length == w.rows
    requires logits32 != null ==> logits32.Length == w.rows
    modifies output, logits32
    ensures Scaled(output[..], s) == MatVec(old(input[..]), inScale, w)
    ensures logits32 != null ==> logits32[..] == Accumulate(old(input[..]), w)
  {
    hide Products, Outputs, Peak, Flat;
    SingleRow(input[..], w);
    s := NpuMatmul(output, input, 1, w, inScale, logits32);
  }

  lemma NoRows(accs: seq<seq<int>>)
    ensures Peak(accs[..0]) == 1 && Flat(accs[..0]) == [] && Outputs(accs[..0]) == []
  {
  }

  /** Elements in the r rows of n before row r. */
  function Before(r: nat, n: nat): nat {
    MulLe(0, r, 0, n);
    r * n
  }

  lemma RowStarts(m: nat, n: nat)
    ensures Before(0, n) == 0 && Before(m, n) == m * n
  {
  }

  lemma RowFits(r: nat, m: nat, n: nat)
    requires r < m
    ensures Before(r + 1, n) == Before(r, n) + n <= Before(m, n)
  {
    HeadInside(r, m, n);
    assert (r + 1) * n == r * n + n;
  }

  lemma RowOfProducts(x: seq<int8>, m: nat, w: Weight, r: nat)
    requires w.Shaped(w.rows, w.cols) && |x| == m * w.cols && r < m && Before(r, w.cols) + w.cols <= |x|
    ensures Products(x, m, w)[r] == Accumulate(x[Before(r, w.cols)..Before(r, w.cols) + w.cols], w)
  {
    assert InputRow(x, m, w.cols, r) == x[Before(r, w.cols)..Before(r, w.cols) + w.cols];
  }

  // ---------------------------------------------------------------- one scale for all rows

  lemma {:induction false} PeakGrows(accs: seq<seq<int>>, r: nat, r': nat)
    requires r <= r' <= |accs|
    ensures Peak(accs[..r]) <= Peak(accs[..r'])
    decreases r' - r
  {
    if r < r' {
      PeakGrows(accs, r, r' - 1);
      OneMoreRow(accs, r' - 1);
    }
  }

  /** The returned scale belongs to the maximum that every row was requantised with exactly
      when the first row already holds the largest magnitude. */
  lemma OneScaleIff(accs: seq<seq<int>>)
    requires accs != []
    ensures (forall r :: 0 < r <= |accs| ==> Peak(accs[..r]) == Peak(accs)) <==> MaxAbs(accs[0]) == Peak(accs)
  {
    assert accs[..|accs|] == accs;
    OneMoreRow(accs, 0);
    NoRows(accs);
    assert Peak(accs[..1]) == MaxAbs(accs[0]);
    if MaxAbs(accs[0]) == Peak(accs) {
      forall r | 0 < r <= |accs| ensures Peak(accs[..r]) == Peak(accs) {
        PeakGrows(accs, 1, r);
        PeakGrows(accs, r, |accs|);
      }
    }
  }

  /** Two rows of one lane, 1 and 2, times a weight of 1: both come out as 127 at one scale. */
  lemma SecondRowLarger()
    ensures
      var w := Weight([1], 1, 1, 1);
      && Products([1, 2], 2, w) == [[1], [2]] && Peak([[1], [2]]) == 2 && Outputs([[1], [2]]) == [127, 127]
  {
    var w := Weight([1], 1, 1, 1);
    var accs := [[1], [2]];
    UnitProduct(1);
    UnitProduct(2);
    assert InputRow([1, 2], 2, 1, 0) == [1] && InputRow([1, 2], 2, 1, 1) == [2];
    assert Products([1, 2], 2, w) == accs;
    NoRows(accs);
    OneMoreRow(accs, 0);
    OneMoreRow(accs, 1);
    assert accs[..2] == accs;
    OnePeak(1);
    OnePeak(2);
    hide Products, Peak, Outputs, RequantAll, MaxAbs;
  }

  lemma UnitProduct(v: int8)
    ensures Accumulate([v], Weight([1], 1, 1, 1)) == [v]
  {
    assert WeightRow(Weight([1], 1, 1, 1), 0) == [1];
    assert [v][..0] == [] && [1][..0] == [];
    assert Dot([v], [1]) == Dot([], []) + Times(v, 1);
  }

  lemma OnePeak(v: int8)
    requires v > 0
    ensures MaxAbs([v]) == v && RequantAll([v], v) == [127]
  {
    assert [v][..0] == [];
    RequantNearest(v, v);
  }

  // ---------------------------------------------------------------- what a product's scale promises

  const UNIT: nat := 0x10_0000

  /** q at scale s (Q20) stands for acc * f / 2^40 to within half a step of the largest and
      127 units, everything multiplied out. */
  ghost predicate ProductStands(q: int, s: int, acc: int, f: int, mx: int) {
    254 * Abs(q * s * UNIT - acc * f) <= mx * f + 254 * 127 * UNIT
  }

  lemma ScaleNear(p: nat, s: nat)
    requires s == if p / (127 * UNIT) < 1 then 1 else p / (127 * UNIT)
    ensures Abs(127 * UNIT * s - p) <= 127 * UNIT
  {
    DivMod(p, 127 * UNIT);
    var u := 127 * UNIT;
    assert p / u * u == u * (p / u);
  }

  lemma HalfStep(acc: int, q: int, f: nat, mx: int)
    requires -mx <= 254 * acc - 2 * mx * q <= mx
    ensures -(mx * f) <= 254 * (acc * f) - 2 * (mx * f) * q <= mx * f
  {
    var e := 254 * acc - 2 * mx * q;
    assert e * f == 254 * (acc * f) - 2 * (mx * f) * q by {
      assert (2 * mx * q) * f == 2 * (mx * f) * q;
    }
    assert (mx - e) * f >= 0 && (mx + e) * f >= 0;
  }

  lemma ScaleStep(q: int, d: int, u: nat)
    requires -127 <= q <= 127 && Abs(d) <= u
    ensures Abs(q * d) <= 127 * u
  {
    MulLe(Abs(q), 127, Abs(d), u);
    assert Abs(q) * Abs(d) == Abs(q * d);
  }

  /** Every output element of llm_npu_matmul stands for its accumulator times both scales
      as long as the product for the largest accumulator stays below 127 * 2^52, where
      neither the 64-bit product nor the 32-bit scale wraps. */
  lemma ProductElementStands(acc: int, mx: nat, wScale: uint32, inScale: uint32)
    requires mx > 0 && Abs(acc) <= mx && mx * (wScale * inScale) < 127 * UNIT * TWO32
    ensures ProductStands(Requant(acc, mx), MatScale(mx, wScale, inScale), acc, wScale * inScale, mx)
  {
    var f := wScale * inScale;
    MulLe(0, wScale, 0, inScale);
    var p := mx * f;
    MulLe(0, mx, 0, f);
    assert mx * wScale * inScale == p;
    var s := MatScale(mx, wScale, inScale);
    DivMod(p, 127 * UNIT);
    ScaleNear(p, s);
    RequantNearest(acc, mx);
    HalfStep(acc, Requant(acc, mx), f, mx);
    ScaleStep(Requant(acc, mx), 127 * UNIT * s - p, 127 * UNIT);
    AddErrors(Requant(acc, mx), s, acc * f, p);
  }

  lemma AddErrors(q: int, s: int, v: int, p: int)
    requires -p <= 254 * v - 2 * p * q <= p && Abs(q * (127 * UNIT * s - p)) <= 127 * (127 * UNIT)
    ensures 254 * Abs(q * s * UNIT - v) <= p + 254 * 127 * UNIT
  {
    assert q * (127 * UNIT * s - p) == 127 * (q * s * UNIT) - q * p;
    assert 2 * p * q == 2 * (q * p);
  }

  /** From there on the scale has wrapped and the largest element misses its value. */
  lemma LargestMisses(acc: int, mx: nat, wScale: uint32, inScale: uint32)
    requires mx > 0 && Abs(acc) == mx && mx * (wScale * inScale) >= 127 * UNIT * TWO32
    ensures !ProductStands(Requant(acc, mx), MatScale(mx, wScale, inScale), acc, wScale * inScale, mx)
  {
    var f := wScale * inScale;
    MulLe(0, wScale, 0, inScale);
    var p := mx * f;
    assert mx * wScale * inScale == p;
    assert acc * f == if acc >= 0 then p else -p;
    RequantNearest(acc, mx);
    ScaleWrapped(p, MatScale(mx, wScale, inScale));
  }

  lemma ScaleWrapped(p: nat, s: nat)
    requires p >= 127 * UNIT * TWO32
    requires
      var r := p % 0x1_0000_0000_0000_0000 / (127 * UNIT);
      s == (if r < 1 then 1 else r) % TWO32
    ensures 254 * (p - 127 * UNIT * s) > p + 254 * 127 * UNIT
  {
    if p < 0x1_0000_0000_0000_0000 {
      var r := p / (127 * UNIT);
      DivMod(p, 127 * UNIT);
      DivMod(r, TWO32);
      assert r >= TWO32 && s <= r - TWO32;
    }
  }

  /** A product that is not all zero stands in every element exactly when the product of its
      largest accumulator with both scales stays below 127 * 2^52. */
  lemma MatVecStandsIff(x: seq<int8>, inScale: uint32, w: Weight)
    requires w.Shaped(w.rows, w.cols) && |x| == w.cols
    requires exists n :: 0 <= n < w.rows && Accumulate(x, w)[n] != 0
    ensures
      var (y, acc) := (MatVec(x, inScale, w), Accumulate(x, w));
      (forall n :: 0 <= n < w.rows ==> ProductStands(y.v[n], y.s, acc[n], w.scale * inScale, MaxAbs(acc)))
      <==> MaxAbs(acc) * (w.scale * inScale) < 127 * UNIT * TWO32
  {
    var (y, acc) := (MatVec(x, inScale, w), Accumulate(x, w));
    var mx := MaxAbs(acc);
    if mx * (w.scale * inScale) < 127 * UNIT * TWO32 {
      forall n | 0 <= n < w.rows ensures ProductStands(y.v[n], y.s, acc[n], w.scale * inScale, mx) {
        ProductElementStands(acc[n], mx, w.scale, inScale);
      }
    } else {
      var n := LargestAt(acc);
      LargestMisses(acc[n], mx, w.scale, inScale);
      assert !ProductStands(y.v[n], y.s, acc[n], w.scale * inScale, mx);
    }
  }

  /** No scale is 0 as long as nothing wraps. */
  lemma ScalesAtLeastOne(maxabs: nat, wScale: uint32, inScale: uint32)
    ensures OutScale(maxabs) >= 1
    ensures maxabs * (wScale * inScale) < 127 * UNIT * TWO32 ==> MatScale(maxabs, wScale, inScale) >= 1
  {
    assert maxabs * (wScale * inScale) == maxabs * wScale * inScale;
    if maxabs * (wScale * inScale) < 127 * UNIT * TWO32 { SmallScale(maxabs * wScale * inScale); }
  }

  lemma SmallScale(p: int)
    requires 0 <= p < 127 * UNIT * TWO32
    ensures p % 0x1_0000_0000_0000_0000 == p && 0 <= p / (127 * 0x10_0000) < TWO32
  {
  }

  /** One lane of 1 times a weight of 1, both scales 2^31: the output is 127 at a scale that
      wrapped. */
  lemma WrappedScaleFails()
    ensures
      var w := Weight([1], 1, 1, 0x8000_0000);
      && Accumulate([1], w) == [1] && MatVec([1], 0x8000_0000, w).v == [127]
      && !ProductStands(127, MatVec([1], 0x8000_0000, w).s, 1, 0x8000_0000 * 0x8000_0000, 1)
  {
    var w := Weight([1], 1, 1, 0x8000_0000);
    OneLane(1);
    assert WeightRow(w, 0) == [1];
    assert Accumulate([1], w) == [1] && [1][..0] == [];
    assert MaxAbs([1]) == 1;
    RequantNearest(1, 1);
    LargestMisses(1, 1, 0x8000_0000, 0x8000_0000);
  }

  lemma AccumulatorBound(x: seq<int8>, w: Weight)
    requires w.Shaped(w.rows, w.cols) && |x| == w.cols > 0
    ensures MaxAbs(Accumulate(x, w)) <= 16384 * w.cols
  {
    forall n | 0 <= n < w.rows ensures Abs(Accumulate(x, w)[n]) <= 16384 * w.cols { DotBound(x, WeightRow(w, n)); }
  }

  /** A bound to check before the call, on the width and the two scales alone: within it
      every element stands. */
  lemma ProductWithin(x: seq<int8>, inScale: uint32, w: Weight)
    requires w.Shaped(w.rows, w.cols) && |x| == w.cols > 0 && 16384 * w.cols * (w.scale * inScale) < 127 * UNIT * TWO32
    ensures
      var (y, acc) := (MatVec(x, inScale, w), Accumulate(x, w));
      forall n :: 0 <= n < w.rows ==> ProductStands(y.v[n], y.s, acc[n], w.scale * inScale, MaxAbs(acc))
  {
    hide ProductStands, Requant, MatScale;
    AccumulatorBound(x, w);
    MulLe(0, w.scale, 0, inScale);
    var (y, acc) := (MatVec(x, inScale, w), Accumulate(x, w));
    MulLe(MaxAbs(acc), 16384 * w.cols, w.scale * inScale, w.scale * inScale);
    forall n | 0 <= n < w.rows ensures ProductStands(y.v[n], y.s, acc[n], w.scale * inScale, MaxAbs(acc)) {
      ProductElementStands(acc[n], MaxAbs(acc), w.scale, inScale);
    }
  }

  lemma LargestAt(v: seq<int>) returns (n: nat)
    requires exists k :: 0 <= k < |v| && v[k] != 0
    ensures n < |v| && Abs(v[n]) == MaxAbs(v)
  {
    var k :| 0 <= k < |v| && v[k] != 0;
    n := k;
    if MaxAbs(v) > 1 {
      n :| n < |v| && Abs(v[n]) == MaxAbs(v);
    }
  }
}
